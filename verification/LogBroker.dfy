/** The in-process log broker: live command buffers that tolerate redelivered lines, and
    subscriber channels that are never used after they are closed. Texts are Go strings: each
    `char` stands for one byte. */
module LogBroker {
  import opened Prelude

  // ------------------------------------------------------- one command's buffer

  /** One output line as a worker sends it. */
  datatype Line = Line(phase: string, text: string, number: int)

  datatype Live = Live(output: string, lastSeq: int, updatedAt: int)

  const MAX_BYTES := 1_048_576
  const RETENTION := 900_000

  function Formatted(d: Line): string {
    (if d.phase != "" then "[" + d.phase + "] " else "") + d.text + "\n"
  }

  /** A line is appended when it is newer than all seen, and while the buffer has room. */
  function Appended(lc: Live, d: Line, now: int): Live {
    if d.number <= lc.lastSeq then lc.(updatedAt := now)
    else Live(if |lc.output| < MAX_BYTES then lc.output + Formatted(d) else lc.output, d.number, now)
  }

  const EMPTY := Live("", 0, 0)

  /** The buffer after a series of deliveries, with the instant of each. */
  function Buffer(ds: seq<Line>, at: nat -> int): Live {
    if ds == [] then EMPTY else Appended(Buffer(ds[..|ds| - 1], at), ds[|ds| - 1], at(|ds| - 1))
  }

  /** The buffer regardless of when things happened. */
  function Content(ds: seq<Line>): (string, int) {
    if ds == [] then ("", 0)
    else Took(Content(ds[..|ds| - 1]), ds[|ds| - 1])
  }

  function Took(content: (string, int), d: Line): (string, int) {
    if d.number <= content.1 then content
    else (if |content.0| < MAX_BYTES then content.0 + Formatted(d) else content.0, d.number)
  }

  lemma ContentNext(ds: seq<Line>, d: Line)
    ensures Content(ds + [d]) == Took(Content(ds), d)
  {
    assert (ds + [d])[..|ds|] == ds;
  }

  lemma {:induction false} BufferIsContent(ds: seq<Line>, at: nat -> int)
    ensures Content(ds) == (Buffer(ds, at).output, Buffer(ds, at).lastSeq)
    decreases |ds|
  {
    if ds != [] {
      BufferIsContent(ds[..|ds| - 1], at);
    }
  }

  lemma {:induction false} SeenIsPast(ds: seq<Line>, i: nat)
    requires i < |ds|
    ensures ds[i].number <= Content(ds).1
    decreases |ds|
  {
    if i < |ds| - 1 {
      SeenIsPast(ds[..|ds| - 1], i);
    }
  }

  ghost predicate Redelivered(ds: seq<Line>, d: Line) {
    exists i :: 0 <= i < |ds| && ds[i].number == d.number
  }

  /** Redelivering a line already seen, at any point, leaves the final buffer as it is. */
  lemma {:induction false} RedeliveryIsHarmless(before: seq<Line>, d: Line, after: seq<Line>)
    requires Redelivered(before, d)
    ensures Content(before + [d] + after) == Content(before + after)
    decreases |after|
  {
    if after == [] {
      var i :| 0 <= i < |before| && before[i].number == d.number;
      SeenIsPast(before, i);
      assert before + [d] + after == before + [d] && before + after == before;
      ContentNext(before, d);
    } else {
      var init, last := after[..|after| - 1], after[|after| - 1];
      RedeliveryIsHarmless(before, d, init);
      LastApart(before + [d], after);
      LastApart(before, after);
      ContentNext(before + [d] + init, last);
      ContentNext(before + init, last);
    }
  }

  /** One more line on the buffer its lines have made. */
  lemma AppendedSpec(was: Live, lines: seq<Line>, d: Line, now: int)
    requires Content(lines) == (was.output, was.lastSeq)
    ensures
      var next := Appended(was, d, now);
      && Content(lines + [d]) == (next.output, next.lastSeq)
      && was.output <= next.output
      && (Redelivered(lines, d) ==> next.output == was.output)
  {
    ContentNext(lines, d);
    if i :| 0 <= i < |lines| && lines[i].number == d.number {
      SeenIsPast(lines, i);
    }
  }

  /** Each output extends the ones before it. */
  lemma {:induction false} OutputsExtend(ds: seq<Line>, i: nat)
    requires i <= |ds|
    ensures Content(ds[..i]).0 <= Content(ds).0
    decreases |ds|
  {
    if i < |ds| {
      OutputsExtend(ds[..|ds| - 1], i);
      assert ds[..|ds| - 1][..i] == ds[..i];
    } else {
      assert ds[..i] == ds;
    }
  }

  /** The buffer passes its limit by at most one formatted line. */
  lemma {:induction false} BufferIsCapped(ds: seq<Line>)
    ensures |Content(ds).0| < MAX_BYTES
            || exists i :: 0 <= i < |ds| && |Content(ds).0| < MAX_BYTES + |Formatted(ds[i])|
    decreases |ds|
  {
    if ds != [] {
      var init := ds[..|ds| - 1];
      BufferIsCapped(init);
      if i :| 0 <= i < |init| && |Content(init).0| < MAX_BYTES + |Formatted(init[i])| {
        assert ds[i] == init[i];
      }
      assert |Content(ds).0| < MAX_BYTES + |Formatted(ds[|ds| - 1])| || Content(ds).0 == Content(init).0;
    }
  }

  // ------------------------------------------------------------ overlapping calls

  /** A command's calls of `PublishLine`, cut where the buffer lock is released: outputs
      computed but not yet sent, and those sent. */
  datatype Calls = Calls(seen: seq<Line>, waiting: seq<string>, sent: seq<string>)

  datatype Step = Take(d: Line) | Send(k: nat)

  predicate CanStep(s: Calls, e: Step) {
    e.Send? ==> e.k < |s.waiting|
  }

  function Next(s: Calls, e: Step): Calls
    requires CanStep(s, e)
  {
    match e
    case Take(d) => Calls(s.seen + [d], s.waiting + [Content(s.seen + [d]).0], s.sent)
    case Send(k) => Calls(s.seen, s.waiting[..k] + s.waiting[k + 1..], s.sent + [s.waiting[k]])
  }

  /** Every output sent extends the one sent before. */
  ghost predicate Chain(outputs: seq<string>) {
    forall i, j | 0 <= i < j < |outputs| :: outputs[i] <= outputs[j]
  }

  /** What was sent is covered by what waits, and both by the buffer. */
  ghost predicate Ordered(s: Calls) {
    && (forall i | 0 <= i < |s.sent| :: s.sent[i] <= Content(s.seen).0)
    && (forall i | 0 <= i < |s.waiting| :: s.waiting[i] <= Content(s.seen).0)
    && (forall i, j | 0 <= i < |s.sent| && 0 <= j < |s.waiting| :: s.sent[i] <= s.waiting[j])
    && Chain(s.sent)
  }

  /** What is sent is a prefix of everything that waits. */
  ghost predicate ShortestFirst(s: Calls, e: Step)
    requires CanStep(s, e)
  {
    e.Send? ==> forall i | 0 <= i < |s.waiting| :: s.waiting[e.k] <= s.waiting[i]
  }

  lemma TakeKeepsOrder(s: Calls, d: Line)
    requires Ordered(s)
    ensures Ordered(Next(s, Take(d)))
  {
    var t := s.seen + [d];
    OutputsExtend(t, |s.seen|);
    assert t[..|s.seen|] == s.seen;
    PrefixIsTransitive(s, Content(t).0);
  }

  lemma SendKeepsOrder(s: Calls, k: nat)
    requires Ordered(s) && k < |s.waiting| && ShortestFirst(s, Send(k))
    ensures Ordered(Next(s, Send(k)))
  {
    var t := Next(s, Send(k));
    assert forall j | 0 <= j < |t.waiting| :: t.waiting[j] == if j < k then s.waiting[j] else s.waiting[j + 1];
  }

  lemma PrefixIsTransitive(s: Calls, output: string)
    requires Content(s.seen).0 <= output && Ordered(s)
    ensures forall i | 0 <= i < |s.sent| :: s.sent[i] <= output
    ensures forall i | 0 <= i < |s.waiting| :: s.waiting[i] <= output
  {}

  ghost predicate ValidCalls(s: Calls, es: seq<Step>)
    decreases |es|
  {
    es == [] || (CanStep(s, es[0]) && ValidCalls(Next(s, es[0]), es[1..]))
  }

  ghost function AfterCalls(s: Calls, es: seq<Step>): Calls
    requires ValidCalls(s, es)
    decreases |es|
  {
    if es == [] then s else AfterCalls(Next(s, es[0]), es[1..])
  }

  /** Every send of the run picks an output that is a prefix of all that wait. */
  ghost predicate AlwaysShortest(s: Calls, es: seq<Step>)
    requires ValidCalls(s, es)
    decreases |es|
  {
    es == [] || (ShortestFirst(s, es[0]) && AlwaysShortest(Next(s, es[0]), es[1..]))
  }

  lemma {:induction false} SentGrows(s: Calls, es: seq<Step>)
    requires ValidCalls(s, es)
    ensures s.sent <= AfterCalls(s, es).sent
    decreases |es|
  {
    if es != [] {
      SentGrows(Next(s, es[0]), es[1..]);
    }
  }

  /** What waits is sent in the end, behind everything sent before. */
  lemma {:induction false} WaitingIsSent(s: Calls, es: seq<Step>, x: string) returns (i: nat)
    requires ValidCalls(s, es) && x in s.waiting && AfterCalls(s, es).waiting == []
    ensures |s.sent| <= i < |AfterCalls(s, es).sent| && AfterCalls(s, es).sent[i] == x
    decreases |es|
  {
    var t := Next(s, es[0]);
    if es[0].Send? && s.waiting[es[0].k] == x {
      SentGrows(t, es[1..]);
      i := |s.sent|;
      assert t.sent[i] == x;
    } else {
      StillWaits(s, es[0], x);
      i := WaitingIsSent(t, es[1..], x);
    }
  }

  lemma StillWaits(s: Calls, e: Step, x: string)
    requires CanStep(s, e) && x in s.waiting && (e.Send? ==> s.waiting[e.k] != x)
    ensures x in Next(s, e).waiting
  {
    var j :| 0 <= j < |s.waiting| && s.waiting[j] == x;
    if e.Send? {
      assert Next(s, e).waiting[if j < e.k then j else j - 1] == x;
    } else {
      assert Next(s, e).waiting[j] == x;
    }
  }

  /** A send that overtakes a shorter output breaks the chain for good. */
  lemma OvertakingBreaks(s: Calls, es: seq<Step>)
    requires Ordered(s) && ValidCalls(s, es) && es != [] && AfterCalls(s, es).waiting == []
    requires !ShortestFirst(s, es[0])
    ensures !Chain(AfterCalls(s, es).sent)
  {
    var k, t, sent := es[0].k, Next(s, es[0]), AfterCalls(s, es).sent;
    var j :| 0 <= j < |s.waiting| && !(s.waiting[k] <= s.waiting[j]);
    StillWaits(s, es[0], s.waiting[j]);
    var i := WaitingIsSent(t, es[1..], s.waiting[j]);
    SentGrows(t, es[1..]);
    assert sent[|s.sent|] == t.sent[|s.sent|] == s.waiting[k];
  }

  /** The exact condition, for every run of a command's calls that ends with nothing waiting: the
      outputs sent extend one another if and only if every send picks one that is a prefix of all
      that wait. */
  lemma {:induction false} ChainIffAlwaysShortest(s: Calls, es: seq<Step>)
    requires Ordered(s) && ValidCalls(s, es) && AfterCalls(s, es).waiting == []
    ensures Chain(AfterCalls(s, es).sent) <==> AlwaysShortest(s, es)
    decreases |es|
  {
    if es != [] {
      if !ShortestFirst(s, es[0]) {
        OvertakingBreaks(s, es);
      } else {
        match es[0] {
          case Take(d) => TakeKeepsOrder(s, d);
          case Send(k) => SendKeepsOrder(s, k);
        }
        ChainIffAlwaysShortest(Next(s, es[0]), es[1..]);
      }
    }
  }

  /** A concrete run from nothing: two lines are taken, and the second one's output is sent
      first. */
  lemma OvertakingExample() returns (es: seq<Step>)
    ensures
      var s := Calls([], [], []);
      Ordered(s) && ValidCalls(s, es) && AfterCalls(s, es).waiting == [] && !Chain(AfterCalls(s, es).sent)
  {
    var s, a, b := Calls([], [], []), Line("", "a", 1), Line("", "b", 2);
    var s1 := Next(s, Take(a));
    var s2 := Next(s1, Take(b));
    ContentNext([], a);
    ContentNext([a], b);
    assert [] + [a] == [a] && s1.seen == [a] && s2.seen == [a] + [b];
    assert Content([a]).0 == "a\n" && Content([a] + [b]).0 == "a\nb\n";
    assert s2.waiting == ["a\n", "a\nb\n"];
    var s3 := Next(s2, Send(1));
    assert s3.waiting == ["a\n"];
    var s4 := Next(s3, Send(0));
    assert s4.sent == ["a\nb\n", "a\n"];
    CallsCons(s3, Send(0), []);
    CallsCons(s2, Send(1), [Send(0)] + []);
    es := [Send(1)] + ([Send(0)] + []);
    CallsCons(s1, Take(b), es);
    CallsCons(s, Take(a), [Take(b)] + es);
    es := [Take(a)] + ([Take(b)] + es);
    assert !(s4.sent[0] <= s4.sent[1]);
  }

  lemma CallsCons(s: Calls, e: Step, es: seq<Step>)
    requires CanStep(s, e) && ValidCalls(Next(s, e), es)
    ensures ValidCalls(s, [e] + es) && AfterCalls(s, [e] + es) == AfterCalls(Next(s, e), es)
  {
    assert ([e] + es)[1..] == es;
  }

  /** Calls that happen not to overlap: none takes its line while another still has to send. */
  ghost predicate OneByOne(s: Calls, es: seq<Step>)
    requires ValidCalls(s, es)
    decreases |es|
  {
    es == [] || ((es[0].Take? ==> s.waiting == []) && OneByOne(Next(s, es[0]), es[1..]))
  }

  /** Calls that do not overlap meet the condition. Nothing makes the calls take turns: each line
      arrives in a goroutine of its own. */
  lemma {:induction false} PublishedOutputsExtend(s: Calls, es: seq<Step>)
    requires Ordered(s) && |s.waiting| <= 1 && ValidCalls(s, es) && OneByOne(s, es)
    ensures AlwaysShortest(s, es) && Chain(AfterCalls(s, es).sent)
    decreases |es|
  {
    if es != [] {
      match es[0] {
        case Take(d) => TakeKeepsOrder(s, d);
        case Send(k) => SendKeepsOrder(s, k);
      }
      PublishedOutputsExtend(Next(s, es[0]), es[1..]);
    }
  }

  // ------------------------------------------------------------- which lines are kept

  /** The line is numbered above zero and above every line delivered before it. */
  ghost predicate Newest(ds: seq<Line>, i: nat)
    requires i < |ds|
  {
    ds[i].number > 0 && forall j | 0 <= j < i :: ds[j].number < ds[i].number
  }

  /** The line is the newest when it comes and there is room. */
  ghost predicate Kept(ds: seq<Line>, i: nat)
    requires i < |ds|
  {
    Newest(ds, i) && |Content(ds[..i]).0| < MAX_BYTES
  }

  /** The text of the kept lines among the first n, in the order of delivery. */
  ghost function KeptText(ds: seq<Line>, n: nat): string
    requires n <= |ds|
  {
    if n == 0 then "" else KeptText(ds, n - 1) + if Kept(ds, n - 1) then Formatted(ds[n - 1]) else ""
  }

  /** `last` is the highest number delivered, zero when none is above it. */
  lemma {:induction false} LastIsHighest(ds: seq<Line>)
    ensures Content(ds).1 >= 0 && forall i | 0 <= i < |ds| :: ds[i].number <= Content(ds).1
    ensures Content(ds).1 == 0 || exists i :: 0 <= i < |ds| && ds[i].number == Content(ds).1
    decreases |ds|
  {
    if ds != [] {
      var init := ds[..|ds| - 1];
      LastIsHighest(init);
      assert forall i | 0 <= i < |init| :: ds[i] == init[i];
      if Content(ds).1 == Content(init).1 && Content(init).1 != 0 {
        var i :| 0 <= i < |init| && init[i].number == Content(init).1;
        assert ds[i].number == Content(ds).1;
      } else if Content(ds).1 != 0 {
        assert ds[|ds| - 1].number == Content(ds).1;
      }
    }
  }

  lemma NewestIsAboveLast(ds: seq<Line>, n: nat)
    requires n < |ds|
    ensures Newest(ds, n) <==> ds[n].number > Content(ds[..n]).1
  {
    var before := ds[..n];
    LastIsHighest(before);
    assert forall j | 0 <= j < n :: before[j] == ds[j];
    if Newest(ds, n) && Content(before).1 != 0 {
      var j :| 0 <= j < |before| && before[j].number == Content(before).1;
      assert ds[j].number < ds[n].number;
    }
  }

  /** The buffer holds exactly the kept lines, in the order of delivery. */
  lemma {:induction false} BufferIsKeptLines(ds: seq<Line>, n: nat)
    requires n <= |ds|
    ensures Content(ds[..n]).0 == KeptText(ds, n)
    decreases n
  {
    if n > 0 {
      BufferIsKeptLines(ds, n - 1);
      NewestIsAboveLast(ds, n - 1);
      assert ds[..n] == ds[..n - 1] + [ds[n - 1]];
      ContentNext(ds[..n - 1], ds[n - 1]);
    }
  }

  /** The first delivery of its number. */
  ghost predicate First(ds: seq<Line>, i: nat)
    requires i < |ds|
  {
    forall j | 0 <= j < i :: ds[j].number != ds[i].number
  }

  /** A delivery of the line's number is kept. */
  ghost predicate Arrives(ds: seq<Line>, i: nat)
    requires i < |ds|
  {
    exists j :: 0 <= j < |ds| && ds[j].number == ds[i].number && Kept(ds, j)
  }

  /** No line is lost if and only if first deliveries come in rising order, from one on, while
      there is room: a line overtaken by a later one on its first delivery is gone. */
  lemma NothingLostIffInOrder(ds: seq<Line>)
    ensures (forall i | 0 <= i < |ds| :: Arrives(ds, i)) <==>
            forall i | 0 <= i < |ds| && First(ds, i) ::
              && ds[i].number > 0
              && (forall j | 0 <= j < i :: ds[j].number < ds[i].number)
              && |Content(ds[..i]).0| < MAX_BYTES
  {
    if forall i | 0 <= i < |ds| :: Arrives(ds, i) {
      forall i | 0 <= i < |ds| && First(ds, i)
        ensures Kept(ds, i)
      {
        assert Arrives(ds, i);
        var j :| 0 <= j < |ds| && ds[j].number == ds[i].number && Kept(ds, j);
        assert j == i;
      }
    } else {
      var i :| 0 <= i < |ds| && !Arrives(ds, i);
      var j := FirstOf(ds, i);
      assert !Kept(ds, j);
    }
  }

  /** Two lines delivered in the wrong order: the first one never arrives. */
  lemma OvertakenLineIsLost() returns (ds: seq<Line>)
    ensures |ds| == 2 && ds[0].number == 2 && ds[1].number == 1 && !Arrives(ds, 1)
    ensures Content(ds).0 == Formatted(ds[0])
  {
    var a, b := Line("", "a", 1), Line("", "b", 2);
    ds := [b, a];
    ContentNext([], b);
    ContentNext([b], a);
    assert [] + [b] == [b] && [b] + [a] == ds;
  }

  lemma {:induction false} FirstOf(ds: seq<Line>, i: nat) returns (j: nat)
    requires i < |ds|
    ensures j <= i && ds[j].number == ds[i].number && First(ds, j)
  {
    if First(ds, i) {
      j := i;
    } else {
      var k :| 0 <= k < i && ds[k].number == ds[i].number;
      j := FirstOf(ds, k);
    }
  }
}
