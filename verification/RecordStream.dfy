/** Incremental parsing: a buffer fed in chunks, a parser that consumes complete records from
    its front, and compaction. */
module RecordStream {
  import opened Wrappers

  /** What one call of a parser does: its new state, the records it emits, and the bytes it
      consumes (or a failure). */
  datatype Parsed<P, R> = Parsed(state: P, records: seq<R>, consumed: Option<nat>)

  type Parser<!P(!new), !R> = (P, seq<Byte>, bool) -> Parsed<P, R>

  /** Do `first`, then `second` on what it left. */
  function Then<P, R>(first: Parsed<P, R>, second: Parsed<P, R>): Parsed<P, R>
    requires first.consumed.Some?
  {
    Parsed(second.state, first.records + second.records,
           if second.consumed.None? then None else Some(first.consumed.value + second.consumed.value))
  }

  /** A parser consumes a prefix of the bytes it is given. */
  ghost predicate ConsumesPrefix<P(!new), R>(step: Parser<P, R>) {
    forall p: P, a: seq<Byte>, eof: bool {:trigger step(p, a, eof)} ::
      step(p, a, eof).consumed.Some? ==> step(p, a, eof).consumed.value <= |a|
  }

  /** Parsing a prefix first, and the rest from where that stopped, is parsing the whole. */
  ghost predicate Composes<P(!new), R>(step: Parser<P, R>) {
    && ConsumesPrefix(step)
    && forall p: P, a: seq<Byte>, b: seq<Byte>, eof: bool {:trigger step(p, a + b, eof), step(p, a, false)} ::
         var first := step(p, a, false);
         first.consumed.Some? ==>
           step(p, a + b, eof) == Then(first, step(first.state, a[first.consumed.value..] + b, eof))
  }

  /** Having emitted `emitted` from the front of `fed` and kept `pending` of its end, going on
      is the same as parsing `fed` at once, whatever is still to come. */
  ghost predicate Equivalent<P(!new), R>(step: Parser<P, R>, origin: P, fed: seq<Byte>,
                                         parser: P, emitted: seq<R>, pending: seq<Byte>)
  {
    && |pending| <= |fed| && fed[|fed| - |pending|..] == pending
    && forall more: seq<Byte>, end: bool {:trigger step(origin, fed + more, end)} ::
         step(origin, fed + more, end)
         == Then(Parsed(parser, emitted, Some(|fed| - |pending|)), step(parser, pending + more, end))
  }

  /** At the end of the input nothing is left to do after one call: a further one emits no
      record and consumes nothing. */
  ghost predicate Settles<P(!new), R>(step: Parser<P, R>) {
    forall p: P, a: seq<Byte> {:trigger step(p, a, true)} ::
      var last := step(p, a, true);
      last.consumed.Some? && last.consumed.value <= |a| ==>
        step(last.state, a[last.consumed.value..], true) == Parsed(last.state, [], Some(0))
  }

  lemma FeedEquivalent<P(!new), R>(step: Parser<P, R>, origin: P, fed: seq<Byte>, parser: P,
                                   emitted: seq<R>, pending: seq<Byte>, chunk: seq<Byte>)
    requires Equivalent(step, origin, fed, parser, emitted, pending)
    ensures Equivalent(step, origin, fed + chunk, parser, emitted, pending + chunk)
  {
    forall more: seq<Byte>, end: bool
      ensures step(origin, fed + chunk + more, end)
              == Then(Parsed(parser, emitted, Some(|fed| - |pending|)), step(parser, pending + chunk + more, end))
    {
      assert fed + chunk + more == fed + (chunk + more);
      assert pending + chunk + more == pending + (chunk + more);
    }
  }

  /** The whole input so far, parsed at once. */
  lemma ParseWhole<P(!new), R>(step: Parser<P, R>, origin: P, fed: seq<Byte>, parser: P,
                               emitted: seq<R>, pending: seq<Byte>, eof: bool)
    requires Equivalent(step, origin, fed, parser, emitted, pending)
    ensures step(origin, fed, eof)
            == Then(Parsed(parser, emitted, Some(|fed| - |pending|)), step(parser, pending, eof))
  {
    assert fed + [] == fed && pending + [] == pending;
    assert step(origin, fed + [], eof)
           == Then(Parsed(parser, emitted, Some(|fed| - |pending|)), step(parser, pending + [], eof));
  }

  /** Three steps in a row, whichever two are taken together first. */
  lemma ThenThen<P, R>(consumed: nat, parser: P, emitted: seq<R>, parsed: Parsed<P, R>, last: Parsed<P, R>)
    requires parsed.consumed.Some?
    ensures Then(Parsed(parser, emitted, Some(consumed)), Then(parsed, last))
            == Then(Parsed(parsed.state, emitted + parsed.records, Some(consumed + parsed.consumed.value)), last)
  {
    assert emitted + (parsed.records + last.records) == emitted + parsed.records + last.records;
  }

  lemma ComposeAt<P(!new), R>(step: Parser<P, R>, p: P, a: seq<Byte>, b: seq<Byte>, eof: bool)
    requires Composes(step) && step(p, a, false).consumed.Some?
    ensures var first := step(p, a, false);
            && first.consumed.value <= |a|
            && step(p, a + b, eof) == Then(first, step(first.state, a[first.consumed.value..] + b, eof))
  {
  }

  lemma ParseThenMore<P(!new), R>(step: Parser<P, R>, origin: P, fed: seq<Byte>, parser: P,
                                  emitted: seq<R>, pending: seq<Byte>, more: seq<Byte>, end: bool)
    requires Composes(step) && Equivalent(step, origin, fed, parser, emitted, pending)
    requires step(parser, pending, false).consumed.Some?
    ensures var parsed := step(parser, pending, false);
            var rest := pending[parsed.consumed.value..];
            step(origin, fed + more, end)
            == Then(Parsed(parsed.state, emitted + parsed.records, Some(|fed| - |rest|)),
                    step(parsed.state, rest + more, end))
  {
    var parsed := step(parser, pending, false);
    ComposeAt(step, parser, pending, more, end);
    var last := step(parsed.state, pending[parsed.consumed.value..] + more, end);
    assert step(origin, fed + more, end)
           == Then(Parsed(parser, emitted, Some(|fed| - |pending|)), Then(parsed, last));
    ThenThen(|fed| - |pending|, parser, emitted, parsed, last);
  }

  lemma ParseEquivalent<P(!new), R>(step: Parser<P, R>, origin: P, fed: seq<Byte>, parser: P,
                                    emitted: seq<R>, pending: seq<Byte>)
    requires Composes(step) && Equivalent(step, origin, fed, parser, emitted, pending)
    requires step(parser, pending, false).consumed.Some?
    ensures var parsed := step(parser, pending, false);
            parsed.consumed.value <= |pending|
            && Equivalent(step, origin, fed, parsed.state, emitted + parsed.records, pending[parsed.consumed.value..])
  {
    var parsed := step(parser, pending, false);
    var rest := pending[parsed.consumed.value..];
    assert fed[|fed| - |rest|..] == fed[|fed| - |pending|..][parsed.consumed.value..];
    forall more: seq<Byte>, end: bool {:trigger step(origin, fed + more, end)}
      ensures step(origin, fed + more, end)
              == Then(Parsed(parsed.state, emitted + parsed.records, Some(|fed| - |rest|)),
                      step(parsed.state, rest + more, end))
    {
      ParseThenMore(step, origin, fed, parser, emitted, pending, more, end);
    }
  }

  datatype StreamState = Rows | NeedMore | Eof | Failed

  const COMPACT_AFTER: nat := 64 * 1024

  class Stream<P(!new), R> {
    const step: Parser<P, R>
    const validate: seq<Byte> -> bool
    var parser: P
    var buffer: seq<Byte>
    var start: nat
    var eof: bool
    /** The parser state at the beginning, all bytes fed, and all records emitted so far. */
    ghost const origin: P
    ghost var fed: seq<Byte>
    ghost var emitted: seq<R>

    constructor (step: Parser<P, R>, validate: seq<Byte> -> bool, parser: P)
      requires Composes(step)
      ensures Valid() && fed == [] && emitted == [] && origin == parser && !eof
      ensures this.step == step && this.validate == validate
    {
      this.step, this.validate, this.parser := step, validate, parser;
      buffer, start, eof := [], 0, false;
      origin, fed, emitted := parser, [], [];
    }

    function Pending(): seq<Byte>
      reads this
      requires start <= |buffer|
    {
      buffer[start..]
    }

    ghost predicate Valid()
      reads this
    {
      start <= |buffer| && Composes(step) && Equivalent(step, origin, fed, parser, emitted, Pending())
    }

    /** The end of the input was parsed; a further parse finds nothing. */
    ghost predicate Ended()
      reads this
    {
      && eof && start <= |buffer| && |Pending()| <= |fed| && fed[|fed| - |Pending()|..] == Pending()
      && step(origin, fed, true).records == emitted
      && step(origin, fed, true).consumed == Some(|fed| - |Pending()|)
      && step(parser, Pending(), true) == Parsed(parser, [], Some(0))
    }

    method Feed(chunk: seq<Byte>) returns (ok: bool)
      requires Valid()
      modifies this
      ensures Valid() && eof == old(eof) && emitted == old(emitted)
      ensures ok == validate(chunk) && fed == if ok then old(fed) + chunk else old(fed)
      ensures Pending() == if ok then old(Pending()) + chunk else old(Pending())
    {
      if !validate(chunk) { return false; }
      FeedEquivalent(step, origin, fed, parser, emitted, Pending(), chunk);
      buffer := buffer + chunk;
      fed := fed + chunk;
      assert Pending() == old(Pending()) + chunk;
      return true;
    }

    method Finish()
      requires Valid()
      modifies this`eof
      ensures Valid() && eof
    {
      eof := true;
    }

    /** Advance past the consumed bytes and drop them once they are all, or enough. */
    method Consume(consumed: nat)
      requires start <= |buffer| && consumed <= |Pending()|
      modifies this`start, this`buffer
      ensures start <= |buffer| && Pending() == old(Pending())[consumed..]
    {
      start := start + consumed;
      if start >= |buffer| || start >= COMPACT_AFTER {
        buffer := buffer[start..];
        start := 0;
      }
    }

    /** Parse what the buffer holds. All records emitted up to now are those of parsing every
        byte fed so far in one call, and the consumed bytes followed by the pending ones are
        everything fed. */
    method Parse() returns (records: seq<R>, state: StreamState)
      requires Valid() || Ended()
      modifies this
      ensures fed == old(fed) && eof == old(eof) && emitted == old(emitted) + records
      ensures emitted == step(origin, fed, eof).records
      ensures state == Failed <==> step(origin, fed, eof).consumed == None
      ensures state != Failed ==>
                && start <= |buffer| && |Pending()| <= |fed|
                && step(origin, fed, eof).consumed == Some(|fed| - |Pending()|)
                && fed[|fed| - |Pending()|..] == Pending()
      ensures state != Failed && !eof ==> Valid()
      ensures state == Eof && (old(Ended()) || Settles(step)) ==> Ended()
      ensures old(Ended()) ==> records == [] && state == Eof && Pending() == old(Pending())
      ensures state == Eof <==> state != Failed && eof
      ensures state == NeedMore ==> Pending() == old(Pending())
      ensures state == Rows ==> |Pending()| < |old(Pending())|
    {
      if !Ended() { ParseWhole(step, origin, fed, parser, emitted, Pending(), eof); }
      var parsed := step(parser, Pending(), eof);
      if !eof && parsed.consumed.Some? {
        ParseEquivalent(step, origin, fed, parser, emitted, Pending());
      }
      records := parsed.records;
      emitted := emitted + records;
      parser := parsed.state;
      if parsed.consumed.None? { return records, Failed; }
      Consume(parsed.consumed.value);
      if eof { return records, Eof; }
      return records, if parsed.consumed.value == 0 then NeedMore else Rows;
    }
  }
}
