/** Strings laid end to end in one buffer, with the offsets where they meet. */
module Arena {

  const I32_MAX: int := 0x7FFF_FFFF

  /** `n as i32`: the low 32 bits, as a signed number. */
  function AsI32(n: nat): int {
    var low := n % 0x1_0000_0000;
    if low <= I32_MAX then low else low - 0x1_0000_0000
  }

  function Concat(values: seq<string>): string {
    if values == [] then "" else Concat(values[..|values| - 1]) + values[|values| - 1]
  }

  /** Where each value starts, and where the last one ends. */
  function Offsets(values: seq<string>): seq<int> {
    seq(|values| + 1, i requires 0 <= i <= |values| => |Concat(values[..i])|)
  }

  /** The buffer and the offsets hold these values, and no offset overflows. */
  ghost predicate Holds(data: string, offsets: seq<int>, values: seq<string>) {
    data == Concat(values) && offsets == Offsets(values) && |data| <= I32_MAX
  }

  lemma PushValue(data: string, offsets: seq<int>, values: seq<string>, v: string)
    requires Holds(data, offsets, values)
    ensures |data + v| <= I32_MAX ==> Holds(data + v, offsets + [AsI32(|data + v|)], values + [v])
    ensures |data| < |data + v| && I32_MAX < |data + v| < 0x1_0000_0000 ==> AsI32(|data + v|) < 0
  {
    var all := values + [v];
    assert all[..|values|] == values && all[..|all|] == all;
    forall i | 0 <= i < |values| + 1 ensures all[..i] == values[..i] {
    }
    assert Offsets(all)[..|all|] == Offsets(values);
  }

  lemma {:induction false} ConcatPrefix(values: seq<string>, i: nat)
    requires i <= |values|
    ensures |Concat(values[..i])| <= |Concat(values)| && Concat(values)[..|Concat(values[..i])|] == Concat(values[..i])
  {
    if i < |values| {
      var last := |values| - 1;
      ConcatPrefix(values[..last], i);
      assert values[..last][..i] == values[..i];
    } else {
      assert values[..i] == values;
    }
  }

  /** The slice between two neighbouring offsets is the value, and offsets never fall. */
  lemma SliceAt(data: string, offsets: seq<int>, values: seq<string>, i: nat)
    requires Holds(data, offsets, values) && i < |values|
    ensures 0 <= offsets[i] <= offsets[i + 1] <= |data| && data[offsets[i]..offsets[i + 1]] == values[i]
  {
    ConcatPrefix(values, i);
    ConcatPrefix(values, i + 1);
    var upTo := values[..i + 1];
    assert upTo[..i] == values[..i] && upTo[i] == values[i];
    assert data[..offsets[i + 1]] == data[..offsets[i]] + values[i];
  }
}
