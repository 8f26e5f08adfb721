/** The writer that hands a byte stream on line by line, whatever chunks it arrives in. */
module LineWriter {

  /** Strips every trailing newline and carriage return. */
  function TrimNewline(s: string): string {
    if s != "" && (s[|s| - 1] == '\n' || s[|s| - 1] == '\r') then TrimNewline(s[..|s| - 1]) else s
  }

  /** The position behind the first newline; 0 when there is none. */
  function FirstLine(s: string): (n: nat)
    ensures n <= |s|
  {
    if s == "" then 0
    else if s[0] == '\n' then 1
    else if FirstLine(s[1..]) == 0 then 0
    else FirstLine(s[1..]) + 1
  }

  /** It is the first newline indeed. */
  lemma {:induction false} FirstLineSpec(s: string)
    ensures var n := FirstLine(s);
            if n == 0 then '\n' !in s else s[n - 1] == '\n' && '\n' !in s[..n - 1]
    decreases |s|
  {
    if s != "" && s[0] != '\n' {
      FirstLineSpec(s[1..]);
      var n := FirstLine(s[1..]);
      assert s == [s[0]] + s[1..];
      if n > 0 {
        assert s[..n] == [s[0]] + s[1..][..n - 1];
      }
    }
  }

  /** The complete lines of a stream. */
  function Lines(s: string): seq<string>
    decreases |s|
  {
    var n := FirstLine(s);
    if n == 0 then [] else [TrimNewline(s[..n])] + Lines(s[n..])
  }

  /** What follows the last newline. */
  function Rest(s: string): string
    decreases |s|
  {
    var n := FirstLine(s);
    if n == 0 then s else Rest(s[n..])
  }

  lemma {:induction false} RestIsUnfinished(s: string)
    ensures '\n' !in Rest(s)
    decreases |s|
  {
    var n := FirstLine(s);
    if n == 0 {
      FirstLineSpec(s);
    } else {
      RestIsUnfinished(s[n..]);
    }
  }

  /** The split of a whole stream: its lines, and the unfinished one if there is any. */
  function SplitLines(s: string): seq<string> {
    Lines(s) + if Rest(s) != "" then [TrimNewline(Rest(s))] else []
  }

  /** Text behind a complete stretch is split on its own. */
  lemma {:induction false} LinesOfConcat(a: string, b: string)
    ensures Lines(a + b) == Lines(a) + Lines(Rest(a) + b) && Rest(a + b) == Rest(Rest(a) + b)
    decreases |a|
  {
    var n := FirstLine(a);
    if n > 0 {
      FirstOfConcat(a, b);
      assert (a + b)[..n] == a[..n] && (a + b)[n..] == a[n..] + b;
      LinesOfConcat(a[n..], b);
    }
  }

  lemma {:induction false} FirstOfConcat(a: string, b: string)
    requires FirstLine(a) > 0
    ensures FirstLine(a + b) == FirstLine(a)
    decreases |a|
  {
    if a[0] != '\n' {
      assert (a + b)[1..] == a[1..] + b;
      FirstOfConcat(a[1..], b);
    }
  }

  /** Emitting the first line and going on with what follows changes nothing in the end. */
  lemma OneLineLess(done: seq<string>, s: string)
    ensures
      var n := FirstLine(s);
      if n == 0 then done + Lines(s) == done && Rest(s) == s
      else done + Lines(s) == (done + [TrimNewline(s[..n])]) + Lines(s[n..]) && Rest(s) == Rest(s[n..])
  {}

  function Concat(chunks: seq<string>): string {
    if chunks == [] then "" else Concat(chunks[..|chunks| - 1]) + chunks[|chunks| - 1]
  }

  class Writer {
    const listening: bool
    var buf: string
    var emitted: seq<string>
    ghost var received: string

    constructor (listening: bool)
      ensures this.listening == listening && Valid() && received == "" && emitted == [] && buf == ""
    {
      this.listening, buf, emitted, received := listening, "", [], "";
    }

    /** What was emitted are the complete lines received, and the buffer is what follows them. */
    ghost predicate Valid()
      reads this
    {
      if listening then emitted == Lines(received) && buf == Rest(received)
      else emitted == [] && buf == ""
    }

    /** `Write`. */
    method Write(p: string) returns (n: nat)
      requires Valid()
      modifies this
      ensures Valid() && received == old(received) + p && n == |p|
    {
      n := |p|;
      if !listening {
        received := received + p;
        return;
      }
      LinesOfConcat(received, p);
      buf := buf + p;
      received := received + p;
      while true
        invariant received == old(received) + p
        invariant emitted + Lines(buf) == Lines(received) && Rest(buf) == Rest(received)
        decreases |buf|
      {
        var k := FirstLine(buf);
        OneLineLess(emitted, buf);
        if k == 0 {
          break;
        }
        emitted, buf := emitted + [TrimNewline(buf[..k])], buf[k..];
      }
    }

    /** `Flush`, at the end of the stream. */
    method Flush()
      requires Valid()
      modifies this
      ensures listening ==> emitted == SplitLines(old(received)) && buf == ""
      ensures !listening ==> emitted == []
    {
      if !listening {
        return;
      }
      if buf != "" {
        emitted, buf := emitted + [TrimNewline(buf)], "";
      }
    }
  }

  /** Whatever the chunks, writing them all and flushing emits the split of the whole stream. */
  method WriteAll(chunks: seq<string>) returns (lines: seq<string>)
    ensures lines == SplitLines(Concat(chunks))
  {
    var w := new Writer(true);
    for i := 0 to |chunks|
      invariant fresh(w) && w.Valid() && w.listening && w.received == Concat(chunks[..i])
    {
      assert chunks[..i + 1][..i] == chunks[..i];
      var n := w.Write(chunks[i]);
    }
    assert chunks[..|chunks|] == chunks;
    w.Flush();
    lines := w.emitted;
  }

  /** The complete lines with the newline each ends in. */
  function RawLines(s: string): seq<string>
    decreases |s|
  {
    var n := FirstLine(s);
    if n == 0 then [] else [s[..n]] + RawLines(s[n..])
  }

  lemma {:induction false} ConcatCons(x: string, xs: seq<string>)
    ensures Concat([x] + xs) == x + Concat(xs)
    decreases |xs|
  {
    if xs == [] {
      assert [x][..0] == [];
    } else {
      assert ([x] + xs)[..|xs|] == [x] + xs[..|xs| - 1];
      ConcatCons(x, xs[..|xs| - 1]);
    }
  }

  /** The split loses nothing and goes as far as it can: the raw lines and a rest without a
      newline make up the stream. */
  lemma {:induction false} SplitIsComplete(s: string)
    ensures Concat(RawLines(s)) + Rest(s) == s && '\n' !in Rest(s)
    decreases |s|
  {
    var n := FirstLine(s);
    RestIsUnfinished(s);
    if n > 0 {
      SplitIsComplete(s[n..]);
      PutInFront(s[..n], RawLines(s[n..]), Rest(s[n..]));
      Halves(s, n);
    }
  }

  lemma Halves(s: string, n: nat)
    requires n <= |s|
    ensures s[..n] + s[n..] == s
  {}

  lemma PutInFront(x: string, xs: seq<string>, rest: string)
    ensures Concat([x] + xs) + rest == x + (Concat(xs) + rest)
  {
    ConcatCons(x, xs);
  }

  ghost predicate OneLine(s: string) {
    s != "" && s[|s| - 1] == '\n' && '\n' !in s[..|s| - 1]
  }

  /** Every raw line ends in its only newline, and the lines are the raw lines trimmed. */
  lemma {:induction false} LinesAreTrimmed(s: string, i: nat)
    requires i < |Lines(s)|
    ensures |Lines(s)| == |RawLines(s)| && OneLine(RawLines(s)[i]) && Lines(s)[i] == TrimNewline(RawLines(s)[i])
    decreases |s|
  {
    var n := FirstLine(s);
    SameNumber(s);
    if i == 0 {
      FirstLineSpec(s);
      assert s[..n][..n - 1] == s[..n - 1];
    } else {
      LinesAreTrimmed(s[n..], i - 1);
    }
  }

  lemma {:induction false} SameNumber(s: string)
    ensures |Lines(s)| == |RawLines(s)|
    decreases |s|
  {
    if FirstLine(s) > 0 {
      SameNumber(s[FirstLine(s)..]);
    }
  }

  /** Trimming removes the trailing newlines and returns, and nothing else. */
  lemma {:induction false} TrimNewlineSpec(s: string)
    ensures TrimNewline(s) <= s
    ensures TrimNewline(s) != "" ==> TrimNewline(s)[|TrimNewline(s)| - 1] !in "\r\n"
    ensures forall i | |TrimNewline(s)| <= i < |s| :: s[i] in "\r\n"
    decreases |s|
  {
    if s != "" && (s[|s| - 1] == '\n' || s[|s| - 1] == '\r') {
      TrimNewlineSpec(s[..|s| - 1]);
      assert forall i | 0 <= i < |s| - 1 :: s[i] == s[..|s| - 1][i];
    }
  }
}
