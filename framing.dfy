/** The uncompressed body of a batch: every buffered record followed by
    "\r\n", in buffer order (the loop that writes into the gzip stream), and
    the inverse that splits such a body back into its records. */
module Framing {

  /** A record as the GPS poller produces it: a JSON document, which never
      holds a raw carriage return or line feed. */
  predicate LineFree(r: string)
  {
    forall i :: 0 <= i < |r| ==> r[i] != '\r' && r[i] != '\n'
  }

  /** The text written into the gzip stream for a batch of records. */
  function Frame(records: seq<string>): string
  {
    if records == [] then "" else records[0] + "\r\n" + Frame(records[1..])
  }

  /** Writing one more record extends the framed text by that record and its
      separator. */
  lemma {:induction false} FrameAppend(records: seq<string>, r: string)
    ensures Frame(records + [r]) == Frame(records) + r + "\r\n"
  {
    if records == [] {
      assert records + [r] == [r];
    } else {
      assert (records + [r])[1..] == records[1..] + [r];
      FrameAppend(records[1..], r);
    }
  }

  /** The loop of `webSenderThread` that writes each record and its
      separator, in buffer order. */
  method WriteFramed(records: seq<string>) returns (text: string)
    ensures text == Frame(records)
  {
    text := "";
    var i := 0;
    while i < |records|
      invariant 0 <= i <= |records|
      invariant text == Frame(records[..i])
    {
      FrameAppend(records[..i], records[i]);
      assert records[..i + 1] == records[..i] + [records[i]];
      text := text + records[i] + "\r\n";
      i := i + 1;
    }
    assert records[..i] == records;
  }

  /** The position of the first "\r\n" in `s`, or |s| when there is none. */
  function FirstBreak(s: string): (i: nat)
    ensures i <= |s|
    ensures i < |s| ==> i + 1 < |s| && s[i] == '\r' && s[i + 1] == '\n'
    ensures forall j :: 0 <= j < i && j + 1 < |s| ==> !(s[j] == '\r' && s[j + 1] == '\n')
    decreases |s|
  {
    if |s| < 2 then |s|
    else if s[0] == '\r' && s[1] == '\n' then 0
    else 1 + FirstBreak(s[1..])
  }

  /** Splits a framed text into its records; a trailing piece without a
      separator is kept as a last record. */
  function Deframe(s: string): seq<string>
    decreases |s|
  {
    if s == [] then []
    else
      var i := FirstBreak(s);
      if i == |s| then [s] else [s[..i]] + Deframe(s[i + 2..])
  }

  /** The first break of a framed batch is right after its first record. */
  lemma FirstBreakAfterRecord(r: string, rest: string)
    requires LineFree(r)
    ensures FirstBreak(r + "\r\n" + rest) == |r|
  {
    var s := r + "\r\n" + rest;
    assert s[|r|] == '\r' && s[|r| + 1] == '\n';
  }

  /** Round trip: splitting the framed text of line-free records gives back
      exactly those records, in order. */
  lemma {:induction false} DeframeFrame(records: seq<string>)
    requires forall k :: 0 <= k < |records| ==> LineFree(records[k])
    ensures Deframe(Frame(records)) == records
  {
    if records != [] {
      var r, rest := records[0], Frame(records[1..]);
      var s := r + "\r\n" + rest;
      FirstBreakAfterRecord(r, rest);
      assert s[..|r|] == r;
      assert s[|r| + 2..] == rest;
      DeframeFrame(records[1..]);
    }
  }
}
