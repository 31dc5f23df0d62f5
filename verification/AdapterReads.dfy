/** From the bytes of an input to one table: chunked reads of the three adapters. */
module AdapterReads {
  import opened Wrappers
  import opened SplitPoints
  import opened Chunking
  import opened ChunkedRead
  import TextLines
  import Table
  import Ldif
  import Ini
  import Properties

  /** An LDIF input read in any number of chunks gives the table of one pass, or fails with it. */
  lemma LdifReads(p: Table.Plan, s: string, points: seq<nat>, maxChunks: nat, minChunkBytes: nat, wants: string -> bool)
    requires PlanFor(s, points, Ldif.NextRecordStart, None, maxChunks, minChunkBytes)
    ensures forall r :: r in Ranges(points, |s|) ==> r.start < r.end <= |s|
    ensures MergeChunks(p, Table.Empty(), s, Ranges(points, |s|), Ldif.ParserFor(wants))
            == ReadWhole(p, s, Ldif.ParserFor(wants))
  {
    Ldif.ChunkedParse(s, points, maxChunks, minChunkBytes, wants);
    var parse := Ldif.ParserFor(wants);
    forall text | parse(text).Rows? ensures Bracketed(parse(text).events, false) {
      Ldif.RowsBracketed(TextLines.Lines(text), false, wants);
    }
    ChunkedReadAgrees(p, s, points, parse);
  }

  /** The same for properties. */
  lemma PropertiesReads(p: Table.Plan, s: string, points: seq<nat>, maxChunks: nat, minChunkBytes: nat,
                        wants: string -> bool)
    requires PlanFor(s, points, Properties.NextRecordStart, None, maxChunks, minChunkBytes)
    ensures forall r :: r in Ranges(points, |s|) ==> r.start < r.end <= |s|
    ensures MergeChunks(p, Table.Empty(), s, Ranges(points, |s|), Properties.ParserFor(wants))
            == ReadWhole(p, s, Properties.ParserFor(wants))
  {
    Properties.ChunkedParse(s, points, maxChunks, minChunkBytes, wants);
    var parse := Properties.ParserFor(wants);
    forall text | parse(text).Rows? ensures Bracketed(parse(text).events, false) {
      Properties.RowsBracketed(TextLines.Lines(text), wants);
    }
    ChunkedReadAgrees(p, s, points, parse);
  }

  /** The same for INI, when every line that starts like a header is closed. */
  lemma IniReads(p: Table.Plan, s: string, points: seq<nat>, maxChunks: nat, minChunkBytes: nat, wants: string -> bool)
    requires PlanFor(s, points, Ini.NextRecordStart, None, maxChunks, minChunkBytes)
    requires Ini.HeadersClosed(TextLines.Lines(s))
    ensures forall r :: r in Ranges(points, |s|) ==> r.start < r.end <= |s|
    ensures MergeChunks(p, Table.Empty(), s, Ranges(points, |s|), Ini.ParserFor(wants))
            == ReadWhole(p, s, Ini.ParserFor(wants))
  {
    Ini.ChunkedParse(s, points, maxChunks, minChunkBytes, wants);
    var parse := Ini.ParserFor(wants);
    forall text | parse(text).Rows? ensures Bracketed(parse(text).events, false) {
      Ini.RowsBracketed(Ini.Parsed(text), "", wants);
    }
    ChunkedReadAgrees(p, s, points, parse);
  }
}
