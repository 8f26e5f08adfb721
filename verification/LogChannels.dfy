/** The broker's maps of subscribers and live buffers, updated in place. A channel can be
    sent on or closed only while it is open: the methods demand it, and the broker meets it. */
module LogChannels {
  import opened LogBroker

  datatype Event = Event(recordId: string, output: string, status: string)

  const CAPACITY := 16

  /** A subscriber's channel; it belongs to the stack it was made for. */
  class Channel {
    const stack: string
    var buf: seq<Event>
    var closed: bool

    constructor (stack: string)
      ensures this.stack == stack && !closed && buf == []
    {
      this.stack, buf, closed := stack, [], false;
    }

    /** A send that never blocks: a full buffer drops the event. */
    method TrySend(ev: Event)
      requires !closed
      modifies this`buf
      ensures buf == if |old(buf)| < CAPACITY then old(buf) + [ev] else old(buf)
    {
      if |buf| < CAPACITY {
        buf := buf + [ev];
      }
    }

    method Close()
      requires !closed
      modifies this`closed
      ensures closed
    {
      closed := true;
    }
  }

  function Subscribers(subs: map<string, seq<Channel>>, stack: string): seq<Channel> {
    if stack in subs then subs[stack] else []
  }

  /** What is left when everything idle for too long is evicted. */
  function Swept(live: map<string, Live>, cutoff: int): map<string, Live> {
    map id | id in live && cutoff <= live[id].updatedAt :: live[id]
  }

  function LiveOf(live: map<string, Live>, command: string): Live {
    if command in live then live[command] else EMPTY
  }

  /** The lines a command has delivered since it was last forgotten or swept. */
  ghost function SeenOf(seen: map<string, seq<Line>>, command: string): seq<Line> {
    if command in seen then seen[command] else []
  }

  /** The line goes onto the buffer when it is newer than all seen, and while there is room. */
  method Append(was: Live, d: Line, now: int) returns (lc: Live)
    ensures lc == Appended(was, d, now)
  {
    lc := was;
    if d.number > lc.lastSeq {
      if |lc.output| < MAX_BYTES {
        lc := lc.(output := lc.output + Formatted(d));
      }
      lc := lc.(lastSeq := d.number);
    }
    lc := lc.(updatedAt := now);
  }

  class Broker {
    var subs: map<string, seq<Channel>>
    var live: map<string, Live>
    ghost var seen: map<string, seq<Line>>

    constructor ()
      ensures Valid() && subs == map[] && live == map[]
    {
      subs, live, seen := map[], map[], map[];
    }

    /** Each buffer is what its lines make of an empty one. */
    ghost predicate Recorded()
      reads this`live, this`seen
    {
      seen.Keys == live.Keys && forall id | id in live :: Content(seen[id]) == (live[id].output, live[id].lastSeq)
    }

    /** A live buffer passes the limit by less than one formatted line, and holds exactly the kept
        ones of its command's lines. */
    lemma LiveBuffer(command: string)
      requires Recorded() && command in live
      ensures live[command].output == KeptText(seen[command], |seen[command]|)
      ensures |live[command].output| < MAX_BYTES || exists i ::
                0 <= i < |seen[command]| && |live[command].output| < MAX_BYTES + |Formatted(seen[command][i])|
    {
      var ds := seen[command];
      BufferIsCapped(ds);
      BufferIsKeptLines(ds, |ds|);
      assert ds[..|ds|] == ds;
    }

    ghost function Channels(): set<Channel>
      reads this`subs
    {
      set s, i | s in subs && 0 <= i < |subs[s]| :: subs[s][i]
    }

    /** Every registered channel is open, and registered once, under its own stack. */
    ghost predicate Open()
      reads this`subs, Channels()
    {
      && (forall s, i | s in subs && 0 <= i < |subs[s]| ::
            subs[s][i] in Channels() && !subs[s][i].closed && subs[s][i].stack == s)
      && (forall s, i, j | s in subs && 0 <= i < j < |subs[s]| :: subs[s][i] != subs[s][j])
    }

    ghost predicate Valid()
      reads this, Channels()
    {
      Open() && Recorded()
    }

    method Subscribe(stack: string) returns (c: Channel)
      requires Open()
      modifies this`subs
      ensures Open() && fresh(c) && !c.closed && c.buf == [] && c.stack == stack
      ensures subs == old(subs)[stack := Subscribers(old(subs), stack) + [c]]
    {
      c := new Channel(stack);
      subs := subs[stack := Subscribers(subs, stack) + [c]];
    }

    /** The function `Subscribe` returns with the channel. A second call finds nothing to close. */
    method Unsubscribe(c: Channel)
      requires Open()
      modifies this`subs, c`closed
      ensures Open()
      ensures if c in Subscribers(old(subs), c.stack) then c.closed && c !in Subscribers(subs, c.stack)
              else c.closed == old(c.closed)
      ensures forall s | s != c.stack :: Subscribers(subs, s) == Subscribers(old(subs), s)
      ensures forall d | d in Subscribers(subs, c.stack) :: d in Subscribers(old(subs), c.stack)
      ensures forall d | d in Subscribers(old(subs), c.stack) && d != c :: d in Subscribers(subs, c.stack)
    {
      var list := Subscribers(subs, c.stack);
      var i := Find(list, c);
      if i < |list| {
        list := Without(list, i);
        subs := subs[c.stack := list];
        c.Close();
      }
      if |list| == 0 {
        subs := subs - {c.stack};
      }
    }

    /** `Publish`: every subscriber of the stack with room gets the event, and nobody else. */
    method Publish(stack: string, ev: Event)
      requires Open()
      modifies Subscribers(subs, stack)
      ensures Open()
      ensures forall c | c in Subscribers(subs, stack) ::
                c.buf == if |old(c.buf)| < CAPACITY then old(c.buf) + [ev] else old(c.buf)
    {
      var list := Subscribers(subs, stack);
      for i := 0 to |list|
        invariant forall j | 0 <= j < |list| :: !list[j].closed
        invariant forall j | 0 <= j < i ::
                    list[j].buf == if |old(list[j].buf)| < CAPACITY then old(list[j].buf) + [ev] else old(list[j].buf)
        invariant forall j | i <= j < |list| :: list[j].buf == old(list[j].buf)
      {
        list[i].TrySend(ev);
      }
    }

    /** `sweepLiveLocked`. */
    method SweepLive(now: int)
      requires Recorded()
      modifies this`live, this`seen
      ensures Recorded() && live == Swept(old(live), now - RETENTION)
      ensures forall id | id in live :: seen[id] == old(seen)[id]
    {
      var cutoff, todo := now - RETENTION, live.Keys;
      while todo != {}
        invariant todo <= old(live).Keys
        invariant live.Keys <= old(live).Keys && forall id | id in live :: live[id] == old(live)[id]
        invariant forall id | id in todo :: id in live
        invariant forall id | id in old(live) && id !in todo :: id in live <==> cutoff <= old(live)[id].updatedAt
        decreases todo
      {
        var id :| id in todo;
        todo := todo - {id};
        if live[id].updatedAt < cutoff {
          live := live - {id};
        }
      }
      seen := map id | id in live :: old(seen)[id];
    }

    /** What one more line does to a command's buffer: it stays in front, and a line delivered
        before adds nothing. */
    ghost predicate Extends(was: Live, lines: seq<Line>, command: string, d: Line, now: int)
      reads this
    {
      && command in live && command in seen
      && live[command] == Appended(was, d, now)
      && seen[command] == lines + [d]
      && was.output <= live[command].output
      && (Redelivered(lines, d) ==> live[command].output == was.output)
    }

    /** Puts one more line on a command's buffer. */
    method Grow(command: string, d: Line, now: int)
      requires Recorded()
      modifies this`live, this`seen
      ensures Recorded() && Extends(LiveOf(old(live), command), SeenOf(old(seen), command), command, d, now)
      ensures live == old(live)[command := live[command]]
    {
      ghost var ds := SeenOf(seen, command);
      AppendedSpec(LiveOf(live, command), ds, d, now);
      var lc := Append(LiveOf(live, command), d, now);
      live, seen := live[command := lc], seen[command := ds + [d]];
    }

    /** The part of `PublishLine` under the buffer lock. The command is never swept by its own
        line. */
    method AppendLine(command: string, d: Line, now: int) returns (output: string)
      requires Recorded()
      modifies this`live, this`seen
      ensures Recorded() && Extends(LiveOf(old(live), command), SeenOf(old(seen), command), command, d, now)
      ensures live == Swept(old(live)[command := live[command]], now - RETENTION) && output == live[command].output
    {
      Grow(command, d, now);
      output := live[command].output;
      SweepLive(now);
    }

    /** `PublishLine`: appends the line to the command's buffer and publishes the whole of it. */
    method PublishLine(stack: string, command: string, d: Line, now: int)
      requires Valid()
      modifies this`live, this`seen, Subscribers(subs, stack)
      ensures Valid()
      ensures command == "" ==> live == old(live) && seen == old(seen)
      ensures command != "" ==>
                && Extends(LiveOf(old(live), command), SeenOf(old(seen), command), command, d, now)
                && live == Swept(old(live)[command := live[command]], now - RETENTION)
                && forall c | c in Subscribers(subs, stack) && |old(c.buf)| < CAPACITY ::
                     c.buf == old(c.buf) + [Event("live:" + command, live[command].output, "running")]
    {
      if command == "" {
        return;
      }
      var output := AppendLine(command, d, now);
      Publish(stack, Event("live:" + command, output, "running"));
    }

    /** `ForgetLiveCommand`. */
    method ForgetLiveCommand(command: string)
      requires Valid()
      modifies this`live, this`seen
      ensures Valid() && live == old(live) - {command} && seen == old(seen) - {command}
    {
      live, seen := live - {command}, seen - {command};
    }
  }

  method Find(list: seq<Channel>, c: Channel) returns (i: nat)
    ensures i <= |list| && c !in list[..i] && (i < |list| ==> list[i] == c)
  {
    i := 0;
    while i < |list| && list[i] != c
      invariant i <= |list| && c !in list[..i]
    {
      i := i + 1;
    }
  }

  function Without(list: seq<Channel>, i: nat): (r: seq<Channel>)
    requires i < |list| && forall j, k | 0 <= j < k < |list| :: list[j] != list[k]
    ensures forall d | d in r :: d in list && d != list[i]
    ensures forall d | d in list && d != list[i] :: d in r
    ensures forall j, k | 0 <= j < k < |r| :: r[j] != r[k]
  {
    var r := list[..i] + list[i + 1..];
    assert list == list[..i] + [list[i]] + list[i + 1..];
    r
  }
}
