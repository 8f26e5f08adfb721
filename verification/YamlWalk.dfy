/** Finding the source line of a finding: a path, as text, walked through a YAML tree. */
module YamlWalk {
  import opened Prelude
  import opened Text
  import opened Decimals

  datatype Entry = Entry(key: string, keyLine: nat, value: Node)

  datatype Node =
    | Scalar(line: nat)
    | Mapping(entries: seq<Entry>, line: nat)
    | Sequence(items: seq<Node>, line: nat)
    | Alias(target: Node, line: nat)

  /** A match: the node to go on from, the path still to walk, the line reached. */
  datatype Hit = Hit(next: Option<Node>, rest: string, line: nat)

  // ------------------------------------------------------------- the walk, as functions

  function IndexOf(s: string, c: char): (i: int)
    ensures -1 <= i < |s|
    ensures i >= 0 ==> s[i] == c
  {
    if s == "" then -1
    else if s[0] == c then 0
    else
      var i := IndexOf(s[1..], c);
      if i < 0 then -1 else i + 1
  }

  function TrimDot(s: string): string {
    if HasPrefix(s, ".") then s[1..] else s
  }

  /** `descendIndices` from its loop head. */
  function Indexed(current: Node, remaining: string, matched: nat): (hit: Option<Hit>)
    ensures hit.Some? ==> |hit.value.rest| <= |remaining|
    decreases |remaining|
  {
    if !HasPrefix(remaining, "[") then
      Some(Hit(Some(current), TrimDot(remaining), matched))
    else
      var end := IndexOf(remaining, ']');
      if end < 0 then None
      else
        var idx := Atoi(remaining[1..end]);
        if idx.None? || idx.value < 0 then None
        else if !current.Sequence? || idx.value >= |current.items| then Some(Hit(None, "", matched))
        else Indexed(current.items[idx.value], remaining[end + 1..], current.items[idx.value].line)
  }

  /** What one candidate key makes of the path. */
  function Tried(e: Entry, path: string): (hit: Option<Hit>)
    ensures hit.Some? ==> |hit.value.rest| < |path|
  {
    if e.key == "" || !HasPrefix(path, e.key) then None
    else
      var after := path[|e.key|..];
      if after == "" then Some(Hit(Some(e.value), "", e.keyLine))
      else if HasPrefix(after, ".") then Some(Hit(Some(e.value), after[1..], e.keyLine))
      else if HasPrefix(after, "[") then
        var hit := Indexed(e.value, after, 0);
        if hit.None? then None
        else if hit.value.line == 0 then Some(hit.value.(line := e.keyLine))
        else hit
      else None
  }

  /** The first candidate that matches. */
  function FirstHit(cs: seq<Entry>, path: string): (hit: Option<Hit>)
    ensures hit.Some? ==> |hit.value.rest| < |path|
  {
    if cs == [] then None
    else if Tried(cs[0], path).Some? then Tried(cs[0], path)
    else FirstHit(cs[1..], path)
  }

  /** Stable insertion behind the longer keys. */
  function Placed(e: Entry, cs: seq<Entry>): seq<Entry> {
    if cs != [] && |cs[0].key| > |e.key| then [cs[0]] + Placed(e, cs[1..]) else [e] + cs
  }

  /** `sort.SliceStable` by falling key length. */
  function LongestFirst(cs: seq<Entry>): seq<Entry> {
    if cs == [] then [] else Placed(cs[0], LongestFirst(cs[1..]))
  }

  function Dereferenced(node: Node): Node {
    if node.Alias? then node.target else node
  }

  /** `descend`: one segment of the path; a match always uses some of it up. */
  function Descended(node: Node, path: string): (hit: Option<Hit>)
    ensures hit.Some? ==> |hit.value.rest| < |path|
  {
    var n := Dereferenced(node);
    if n.Mapping? then FirstHit(LongestFirst(n.entries), path) else None
  }

  /** `deepestLine` from its loop head. */
  function Deepest(current: Option<Node>, remaining: string, line: nat): nat
    decreases |remaining|
  {
    if remaining == "" || current.None? then line
    else
      var hit := Descended(current.value, remaining);
      if hit.None? then line else Deepest(hit.value.next, hit.value.rest, hit.value.line)
  }

  // ------------------------------------------------------------------ the code itself

  method DescendIndices(node: Node, path: string) returns (hit: Option<Hit>)
    ensures hit == Indexed(node, path, 0)
  {
    var current, remaining, matched := node, path, 0;
    while HasPrefix(remaining, "[")
      invariant Indexed(node, path, 0) == Indexed(current, remaining, matched)
      decreases |remaining|
    {
      var end := IndexOf(remaining, ']');
      if end < 0 {
        return None;
      }
      var idx := Atoi(remaining[1..end]);
      if idx.None? || idx.value < 0 {
        return None;
      }
      if !current.Sequence? || idx.value >= |current.items| {
        return Some(Hit(None, "", matched));
      }
      current := current.items[idx.value];
      matched := current.line;
      remaining := remaining[end + 1..];
    }
    hit := Some(Hit(Some(current), TrimDot(remaining), matched));
  }

  method Descend(node: Node, path: string) returns (hit: Option<Hit>)
    ensures hit == Descended(node, path)
    ensures hit.Some? ==> |hit.value.rest| < |path|
  {
    var n := Dereferenced(node);
    if !n.Mapping? {
      return None;
    }
    var candidates := LongestFirst(n.entries);
    for i := 0 to |candidates|
      invariant FirstHit(candidates, path) == FirstHit(candidates[i..], path)
    {
      var c := candidates[i];
      assert candidates[i..][0] == c && candidates[i..][1..] == candidates[i + 1..];
      if c.key == "" || !HasPrefix(path, c.key) {
        continue;
      }
      var after := path[|c.key|..];
      if after == "" {
        return Some(Hit(Some(c.value), "", c.keyLine));
      } else if HasPrefix(after, ".") {
        return Some(Hit(Some(c.value), after[1..], c.keyLine));
      } else if HasPrefix(after, "[") {
        var inner := DescendIndices(c.value, after);
        if inner.None? {
          continue;
        }
        var line := if inner.value.line == 0 then c.keyLine else inner.value.line;
        return Some(Hit(inner.value.next, inner.value.rest, line));
      }
    }
    hit := None;
  }

  /** Ends on every tree and every path, because each round uses up some of the path. */
  method DeepestLine(node: Node, path: string) returns (line: nat)
    ensures line == Deepest(Some(node), path, 0)
  {
    line := 0;
    var current, remaining := Some(node), path;
    while remaining != "" && current.Some?
      invariant Deepest(Some(node), path, 0) == Deepest(current, remaining, line)
      decreases |remaining|
    {
      var hit := Descend(current.value, remaining);
      if hit.None? {
        break;
      }
      line, current, remaining := hit.value.line, hit.value.next, hit.value.rest;
    }
  }

  // ----------------------------------------------------------------- the reference

  /** A segment of a path: a name and the indices behind it. */
  datatype Segment = Segment(name: string, indices: seq<nat>)

  datatype Step = Key(name: string) | At(index: nat)

  function Brackets(indices: seq<nat>): string {
    if indices == [] then "" else "[" + Decimal(indices[0]) + "]" + Brackets(indices[1..])
  }

  /** The text of a path: segments joined by dots. */
  function Rendered(segments: seq<Segment>): string
    decreases |segments|, 0
  {
    if segments == [] then "" else segments[0].name + Brackets(segments[0].indices) + Dotted(segments[1..])
  }

  function Dotted(segments: seq<Segment>): string
    decreases |segments|, 1
  {
    if segments == [] then "" else "." + Rendered(segments)
  }

  function Positions(indices: seq<nat>): seq<Step> {
    if indices == [] then [] else [At(indices[0])] + Positions(indices[1..])
  }

  function Steps(segments: seq<Segment>): seq<Step> {
    if segments == [] then []
    else [Key(segments[0].name)] + Positions(segments[0].indices) + Steps(segments[1..])
  }

  function FirstWith(cs: seq<Entry>, key: string): Option<Entry> {
    if cs == [] then None else if cs[0].key == key then Some(cs[0]) else FirstWith(cs[1..], key)
  }

  /** The element a step leads to, and the line it is reported at: the key's for an entry, the
      element's own for an item. */
  function Child(node: Node, step: Step): Option<(Node, nat)> {
    match step
    case Key(name) =>
      if !node.Mapping? || FirstWith(node.entries, name).None? then None
      else
        var e := FirstWith(node.entries, name).value;
        Some((e.value, e.keyLine))
    case At(index) =>
      if !node.Sequence? || index >= |node.items| then None
      else Some((node.items[index], node.items[index].line))
  }

  /** The element at the end of some steps, and its line; the root has line 0. */
  function Reached(root: Node, steps: seq<Step>): Option<(Node, nat)> {
    if steps == [] then Some((root, 0))
    else
      var above := Reached(root, steps[..|steps| - 1]);
      if above.None? then None else Child(above.value.0, steps[|steps| - 1])
  }

  /** `line` is that of the deepest existing element on the way. */
  ghost predicate LineOfDeepest(root: Node, steps: seq<Step>, line: nat) {
    exists n | 0 <= n <= |steps| ::
      && Reached(root, steps[..n]).Some?
      && Reached(root, steps[..n]).value.1 == line
      && (n < |steps| ==> Reached(root, steps[..n + 1]).None?)
  }

  /** Walking step by step and stopping at the first one that leads nowhere. */
  function Walk(node: Node, steps: seq<Step>, line: nat): nat
    decreases |steps|
  {
    if steps == [] || Child(node, steps[0]).None? then line
    else Walk(Child(node, steps[0]).value.0, steps[1..], Child(node, steps[0]).value.1)
  }

  lemma {:induction false} WalkIsLineOfDeepest(root: Node, steps: seq<Step>, done: nat)
    requires done <= |steps| && Reached(root, steps[..done]).Some?
    ensures
      var (node, line) := Reached(root, steps[..done]).value;
      LineOfDeepest(root, steps, Walk(node, steps[done..], line))
    decreases |steps| - done
  {
    if done < |steps| {
      assert steps[..done + 1][..done] == steps[..done];
      if Reached(root, steps[..done + 1]).Some? {
        WalkIsLineOfDeepest(root, steps, done + 1);
        assert steps[done..][1..] == steps[done + 1..];
      }
    }
  }

  // --------------------------------------------------------- the walk is the reference

  /** No aliases, lines counted from one; keys may hold anything. */
  ghost predicate Regular(node: Node) {
    match node
    case Scalar(_) => true
    case Alias(_, _) => false
    case Mapping(entries, _) => forall i | 0 <= i < |entries| :: Regular(entries[i].value)
    case Sequence(items, _) => forall i | 0 <= i < |items| :: items[i].line >= 1 && Regular(items[i])
  }

  /** A segment with a name, dots and brackets included, and indices that fit an `int`. */
  ghost predicate Named(s: Segment) {
    s.name != "" && InRange(s.indices)
  }

  ghost predicate InRange(indices: seq<nat>) {
    forall i | 0 <= i < |indices| :: indices[i] < INT64_LIMIT
  }

  ghost predicate AllNamed(segments: seq<Segment>) {
    forall i | 0 <= i < |segments| :: Named(segments[i])
  }

  /** A key other than the name takes the path: a longer one, or any one when the name is absent. */
  ghost predicate Contested(cs: seq<Entry>, name: string, path: string) {
    exists i | 0 <= i < |cs| ::
      Tried(cs[i], path).Some? && (FirstWith(cs, name).Some? ==> |cs[i].key| > |name|)
  }

  /** At no mapping on the way does a key other than the one named take the rest of the text. */
  ghost predicate Unambiguous(node: Node, segments: seq<Segment>)
    decreases |segments|
  {
    segments == [] || !node.Mapping? ||
    var s, rest := segments[0], segments[1..];
    var named := FirstWith(node.entries, s.name);
    && !Contested(node.entries, s.name, s.name + Behind(s, rest))
    && (named.Some? ==>
          var next := Landed(named.value.value, s.indices, 0).0;
          next.Some? ==> Unambiguous(next.value, rest))
  }

  /** Placing an entry keeps the first of every key. */
  lemma {:induction false} PlacedKeepsFirst(e: Entry, cs: seq<Entry>, key: string)
    ensures FirstWith(Placed(e, cs), key) == FirstWith([e] + cs, key)
    decreases |cs|
  {
    if cs != [] && |cs[0].key| > |e.key| {
      PlacedKeepsFirst(e, cs[1..], key);
      assert ([e] + cs[1..])[1..] == cs[1..];
    }
    assert ([e] + cs)[1..] == cs;
  }

  lemma {:induction false} SortKeepsFirst(cs: seq<Entry>, key: string)
    ensures FirstWith(LongestFirst(cs), key) == FirstWith(cs, key)
    decreases |cs|
  {
    if cs != [] {
      SortKeepsFirst(cs[1..], key);
      PlacedKeepsFirst(cs[0], LongestFirst(cs[1..]), key);
      assert ([cs[0]] + LongestFirst(cs[1..]))[1..] == LongestFirst(cs[1..]);
    }
  }

  ghost predicate Falling(cs: seq<Entry>) {
    forall i, j | 0 <= i < j < |cs| :: |cs[i].key| >= |cs[j].key|
  }

  lemma {:induction false} PlacedElements(e: Entry, cs: seq<Entry>)
    ensures multiset(Placed(e, cs)) == multiset{e} + multiset(cs)
    decreases |cs|
  {
    if cs != [] && |cs[0].key| > |e.key| {
      PlacedElements(e, cs[1..]);
      assert cs == [cs[0]] + cs[1..];
    }
  }

  lemma {:induction false} PlacedFalls(e: Entry, cs: seq<Entry>)
    requires Falling(cs)
    ensures Falling(Placed(e, cs))
    decreases |cs|
  {
    if cs != [] && |cs[0].key| > |e.key| {
      PlacedFalls(e, cs[1..]);
      PlacedElements(e, cs[1..]);
      var out := Placed(e, cs[1..]);
      forall j | 0 <= j < |out| ensures |cs[0].key| >= |out[j].key| {
        assert out[j] in multiset(out);
      }
    }
  }

  /** Candidates come longest key first, none lost, none added. */
  lemma {:induction false} LongestFirstSpec(cs: seq<Entry>)
    ensures Falling(LongestFirst(cs)) && multiset(LongestFirst(cs)) == multiset(cs)
    decreases |cs|
  {
    if cs != [] {
      LongestFirstSpec(cs[1..]);
      PlacedElements(cs[0], LongestFirst(cs[1..]));
      PlacedFalls(cs[0], LongestFirst(cs[1..]));
      assert cs == [cs[0]] + cs[1..];
    }
  }

  /** Sorted candidates: an uncontested name gets the path. */
  lemma {:induction false} FirstHitIsNamed(cs: seq<Entry>, name: string, tail: string)
    requires Falling(cs) && FirstWith(cs, name).Some?
    requires forall i | 0 <= i < |cs| && cs[i].key == name :: Tried(cs[i], name + tail).Some?
    requires forall i | 0 <= i < |cs| && |cs[i].key| > |name| :: Tried(cs[i], name + tail).None?
    ensures FirstHit(cs, name + tail) == Tried(FirstWith(cs, name).value, name + tail)
    decreases |cs|
  {
    if cs[0].key != name {
      FirstWithIsMember(cs[1..], name);
      assert |cs[0].key| >= |name|;
      assert (name + tail)[..|name|] == name;
      FirstHitIsNamed(cs[1..], name, tail);
    }
  }

  lemma {:induction false} NoHit(cs: seq<Entry>, path: string)
    requires forall i | 0 <= i < |cs| :: Tried(cs[i], path).None?
    ensures FirstHit(cs, path).None?
    decreases |cs|
  {
    if cs != [] {
      NoHit(cs[1..], path);
    }
  }

  lemma {:induction false} IndexOfBehind(a: string, c: char, b: string)
    requires c !in a
    ensures IndexOf(a + [c] + b, c) == |a|
    decreases |a|
  {
    var s := a + [c] + b;
    if a != "" {
      IndexOfBehind(a[1..], c, b);
      assert s[1..] == a[1..] + [c] + b;
      assert s[0] == a[0] && a[0] in a;
    }
  }

  /** One bracketed index, read off the text. */
  lemma IndexedStep(node: Node, index: nat, more: string, matched: nat)
    requires index < INT64_LIMIT
    ensures Indexed(node, "[" + Decimal(index) + "]" + more, matched) ==
            if !node.Sequence? || index >= |node.items| then Some(Hit(None, "", matched))
            else Indexed(node.items[index], more, node.items[index].line)
  {
    var digits := Decimal(index);
    var path := "[" + digits + "]" + more;
    var front := "[" + digits;
    assert ']' !in front;
    IndexOfBehind(front, ']', more);
    assert path == front + [']'] + more;
    assert path[1..|front|] == digits;
    assert path[|front| + 1..] == more;
    AtoiOfDecimal(index);
  }

  /** Where a run of indices ends: the element it leads to, if all exist, and the line of the last
      one that does. */
  function Landed(node: Node, indices: seq<nat>, matched: nat): (Option<Node>, nat)
    decreases |indices|
  {
    if indices == [] then (Some(node), matched)
    else if !node.Sequence? || indices[0] >= |node.items| then (None, matched)
    else Landed(node.items[indices[0]], indices[1..], node.items[indices[0]].line)
  }

  /** The line of the last element reached, or the key's when none was. */
  function Reported(matched: nat, keyLine: nat): nat {
    if matched == 0 then keyLine else matched
  }

  lemma DottedIsRendered(rest: seq<Segment>)
    ensures !HasPrefix(Dotted(rest), "[") && TrimDot(Dotted(rest)) == Rendered(rest)
  {}

  lemma {:induction false} IndexedLands(node: Node, indices: seq<nat>, rest: seq<Segment>, matched: nat)
    requires InRange(indices)
    ensures var (n, line) := Landed(node, indices, matched);
            Indexed(node, Brackets(indices) + Dotted(rest), matched) ==
            Some(Hit(n, if n.Some? then Rendered(rest) else "", line))
    decreases |indices|
  {
    if indices == [] {
      assert Brackets(indices) + Dotted(rest) == Dotted(rest);
      DottedIsRendered(rest);
    } else {
      var more := Brackets(indices[1..]) + Dotted(rest);
      assert Brackets(indices) + Dotted(rest) == "[" + Decimal(indices[0]) + "]" + more;
      IndexedStep(node, indices[0], more, matched);
      if node.Sequence? && indices[0] < |node.items| {
        IndexedLands(node.items[indices[0]], indices[1..], rest, node.items[indices[0]].line);
      }
    }
  }

  lemma {:induction false} WalkLands(node: Node, indices: seq<nat>, more: seq<Step>, matched: nat, keyLine: nat)
    requires Regular(node)
    ensures var (n, line) := Landed(node, indices, matched);
            && (n.Some? ==> Regular(n.value))
            && Walk(node, Positions(indices) + more, Reported(matched, keyLine)) ==
               if n.Some? then Walk(n.value, more, Reported(line, keyLine)) else Reported(line, keyLine)
    decreases |indices|
  {
    var steps := Positions(indices) + more;
    if indices == [] {
      assert steps == more;
    } else {
      assert steps[0] == At(indices[0]) && steps[1..] == Positions(indices[1..]) + more;
      if node.Sequence? && indices[0] < |node.items| {
        WalkLands(node.items[indices[0]], indices[1..], more, node.items[indices[0]].line, keyLine);
      }
    }
  }

  function Behind(s: Segment, rest: seq<Segment>): string {
    Brackets(s.indices) + Dotted(rest)
  }

  /** What the entry with the name makes of the path. */
  lemma TriedLands(e: Entry, s: Segment, rest: seq<Segment>)
    requires Named(s) && e.key == s.name
    ensures var (n, line) := Landed(e.value, s.indices, 0);
            Tried(e, s.name + Behind(s, rest)) ==
            Some(Hit(n, if n.Some? then Rendered(rest) else "", Reported(line, e.keyLine)))
  {
    var tail := Behind(s, rest);
    var path := s.name + tail;
    assert path[..|s.name|] == s.name && path[|s.name|..] == tail;
    if s.indices == [] {
      assert tail == Dotted(rest);
    } else {
      assert tail[0] == '[';
      IndexedLands(e.value, s.indices, rest, 0);
    }
  }

  /** Descending by text finds the entry the segment names, unless another key takes the path. */
  lemma DescendedFinds(node: Node, s: Segment, rest: seq<Segment>)
    requires Regular(node) && Named(s)
    requires node.Mapping? ==> !Contested(node.entries, s.name, s.name + Behind(s, rest))
    ensures Descended(node, s.name + Behind(s, rest)) ==
            if !node.Mapping? || FirstWith(node.entries, s.name).None? then None
            else Tried(FirstWith(node.entries, s.name).value, s.name + Behind(s, rest))
  {
    if node.Mapping? {
      var cs, path := LongestFirst(node.entries), s.name + Behind(s, rest);
      SortKeepsFirst(node.entries, s.name);
      LongestFirstSpec(node.entries);
      forall i | 0 <= i < |cs|
        ensures cs[i].key == s.name ==> Tried(cs[i], path).Some?
        ensures FirstWith(cs, s.name).None? || |cs[i].key| > |s.name| ==> Tried(cs[i], path).None?
      {
        assert cs[i] in multiset(node.entries);
        if cs[i].key == s.name {
          TriedLands(cs[i], s, rest);
          FirstWithFinds(cs, i);
        }
      }
      if FirstWith(cs, s.name).Some? {
        FirstHitIsNamed(cs, s.name, Behind(s, rest));
      } else {
        NoHit(cs, path);
      }
    }
  }

  /** What descending by an uncontested name comes to. */
  lemma DescendedLands(node: Node, s: Segment, rest: seq<Segment>)
    requires node.Mapping? && Regular(node) && Named(s) && FirstWith(node.entries, s.name).Some?
    requires !Contested(node.entries, s.name, s.name + Behind(s, rest))
    ensures var e := FirstWith(node.entries, s.name).value;
            var (n, reached) := Landed(e.value, s.indices, 0);
            Descended(node, s.name + Behind(s, rest)) ==
            Some(Hit(n, if n.Some? then Rendered(rest) else "", Reported(reached, e.keyLine)))
  {
    DescendedFinds(node, s, rest);
    FirstWithIsMember(node.entries, s.name);
    TriedLands(FirstWith(node.entries, s.name).value, s, rest);
  }

  /** One segment of the text walk: past an uncontested name it goes on from where the segment lands. */
  lemma DeepestNext(node: Node, segments: seq<Segment>, line: nat)
    requires node.Mapping? && Regular(node) && segments != [] && AllNamed(segments)
    requires FirstWith(node.entries, segments[0].name).Some?
    requires !Contested(node.entries, segments[0].name, segments[0].name + Behind(segments[0], segments[1..]))
    ensures var e := FirstWith(node.entries, segments[0].name).value;
            var (n, reached) := Landed(e.value, segments[0].indices, 0);
            var l := Reported(reached, e.keyLine);
            Deepest(Some(node), Rendered(segments), line) ==
            if n.Some? then Deepest(n, Rendered(segments[1..]), l) else l
  {
    var s, rest := segments[0], segments[1..];
    assert Rendered(segments) == s.name + Behind(s, rest);
    DescendedLands(node, s, rest);
  }

  /** One segment of the walk over the steps. */
  lemma WalkNext(node: Node, segments: seq<Segment>, line: nat)
    requires node.Mapping? && Regular(node) && segments != []
    requires FirstWith(node.entries, segments[0].name).Some?
    ensures var e := FirstWith(node.entries, segments[0].name).value;
            var (n, reached) := Landed(e.value, segments[0].indices, 0);
            var l := Reported(reached, e.keyLine);
            && (n.Some? ==> Regular(n.value))
            && Walk(node, Steps(segments), line) ==
               if n.Some? then Walk(n.value, Steps(segments[1..]), l) else l
  {
    var s, rest, steps := segments[0], segments[1..], Steps(segments);
    assert steps[0] == Key(s.name) && steps[1..] == Positions(s.indices) + Steps(rest);
    FirstWithIsMember(node.entries, s.name);
    var e := FirstWith(node.entries, s.name).value;
    WalkLands(e.value, s.indices, Steps(rest), 0, e.keyLine);
  }

  /** The walk over the text of a path is the walk over its steps. */
  lemma {:induction false} DeepestIsWalk(node: Node, segments: seq<Segment>, line: nat)
    requires Regular(node) && AllNamed(segments) && Unambiguous(node, segments)
    ensures Deepest(Some(node), Rendered(segments), line) == Walk(node, Steps(segments), line)
    decreases |segments|
  {
    if segments != [] {
      var s, rest := segments[0], segments[1..];
      assert Rendered(segments) == s.name + Behind(s, rest) && Steps(segments)[0] == Key(s.name);
      if node.Mapping? && FirstWith(node.entries, s.name).Some? {
        DeepestNext(node, segments, line);
        WalkNext(node, segments, line);
        var e := FirstWith(node.entries, s.name).value;
        var (n, reached) := Landed(e.value, s.indices, 0);
        if n.Some? {
          DeepestIsWalk(n.value, rest, Reported(reached, e.keyLine));
        }
      } else {
        DescendedFinds(node, s, rest);
      }
    }
  }

  lemma {:induction false} FirstWithIsMember(cs: seq<Entry>, key: string)
    requires FirstWith(cs, key).Some?
    ensures FirstWith(cs, key).value in cs && FirstWith(cs, key).value.key == key
    decreases |cs|
  {
    if cs[0].key != key {
      FirstWithIsMember(cs[1..], key);
    }
  }

  lemma {:induction false} FirstWithFinds(cs: seq<Entry>, i: nat)
    requires i < |cs|
    ensures FirstWith(cs, cs[i].key).Some?
    decreases |cs|
  {
    if i > 0 && cs[0].key != cs[i].key {
      FirstWithFinds(cs[1..], i - 1);
    }
  }

  /** For trees without aliases and any path of named segments, dots and brackets in keys and names
      included: where no other key takes the path, the text walk yields the line of the deepest
      existing element on it, 0 when not even the first segment exists. */
  lemma TextWalkFindsDeepest(root: Node, segments: seq<Segment>)
    requires Regular(root) && AllNamed(segments) && Unambiguous(root, segments)
    ensures LineOfDeepest(root, Steps(segments), Deepest(Some(root), Rendered(segments), 0))
  {
    var steps := Steps(segments);
    DeepestIsWalk(root, segments, 0);
    WalkIsLineOfDeepest(root, steps, 0);
    assert steps[0..] == steps && steps[..0] == [];
  }

  // ------------------------------------------------------ keys without dots and brackets

  predicate PlainName(name: string) {
    '.' !in name && '[' !in name
  }

  /** No dots or brackets in any key. */
  ghost predicate PlainKeys(node: Node) {
    match node
    case Scalar(_) => true
    case Alias(target, _) => PlainKeys(target)
    case Mapping(entries, _) =>
      forall i | 0 <= i < |entries| :: PlainName(entries[i].key) && PlainKeys(entries[i].value)
    case Sequence(items, _) => forall i | 0 <= i < |items| :: PlainKeys(items[i])
  }

  /** Only the entry with the name itself matches, whatever the other keys are. */
  lemma OnlyTheNameMatches(e: Entry, name: string, tail: string)
    requires PlainName(e.key) && name != "" && PlainName(name) && e.key != name
    requires tail == "" || tail[0] == '.' || tail[0] == '['
    ensures Tried(e, name + tail).None?
  {
    var path := name + tail;
    assert path[..|name|] == name;
    if tail != "" {
      assert path[|name|] == tail[0];
    }
    if HasPrefix(path, e.key) {
      PrefixElements(path, e.key);
      if |e.key| < |name| {
        assert path[|e.key|..][0] == name[|e.key|];
      }
    }
  }

  lemma PrefixElements(s: string, prefix: string)
    requires HasPrefix(s, prefix)
    ensures forall i | 0 <= i < |prefix| :: s[i] in prefix
  {
    assert forall i | 0 <= i < |prefix| :: s[..|prefix|][i] == s[i];
  }

  lemma BehindStarts(s: Segment, rest: seq<Segment>)
    ensures var tail := Behind(s, rest); tail == "" || tail[0] == '.' || tail[0] == '['
  {}

  lemma {:induction false} LandedPlain(node: Node, indices: seq<nat>, matched: nat)
    requires PlainKeys(node)
    ensures Landed(node, indices, matched).0.Some? ==> PlainKeys(Landed(node, indices, matched).0.value)
    decreases |indices|
  {
    if indices != [] && node.Sequence? && indices[0] < |node.items| {
      LandedPlain(node.items[indices[0]], indices[1..], node.items[indices[0]].line);
    }
  }

  /** Without dots and brackets in keys and names no path is ambiguous. */
  lemma {:induction false} PlainIsUnambiguous(node: Node, segments: seq<Segment>)
    requires PlainKeys(node) && AllNamed(segments)
    requires forall i | 0 <= i < |segments| :: PlainName(segments[i].name)
    ensures Unambiguous(node, segments)
    decreases |segments|
  {
    if segments != [] && node.Mapping? {
      var s, rest := segments[0], segments[1..];
      var tail := Behind(s, rest);
      BehindStarts(s, rest);
      forall i | 0 <= i < |node.entries|
        ensures node.entries[i].key != s.name ==> Tried(node.entries[i], s.name + tail).None?
        ensures node.entries[i].key == s.name ==> FirstWith(node.entries, s.name).Some?
      {
        if node.entries[i].key != s.name {
          OnlyTheNameMatches(node.entries[i], s.name, tail);
        } else {
          FirstWithFinds(node.entries, i);
        }
      }
      if FirstWith(node.entries, s.name).Some? {
        FirstWithIsMember(node.entries, s.name);
        var e := FirstWith(node.entries, s.name).value;
        LandedPlain(e.value, s.indices, 0);
        var next := Landed(e.value, s.indices, 0).0;
        if next.Some? {
          PlainIsUnambiguous(next.value, rest);
        }
      }
    }
  }

  /** So on such trees and paths the text walk always finds the deepest element. */
  lemma PlainWalkFindsDeepest(root: Node, segments: seq<Segment>)
    requires Regular(root) && PlainKeys(root) && AllNamed(segments)
    requires forall i | 0 <= i < |segments| :: PlainName(segments[i].name)
    ensures LineOfDeepest(root, Steps(segments), Deepest(Some(root), Rendered(segments), 0))
  {
    PlainIsUnambiguous(root, segments);
    TextWalkFindsDeepest(root, segments);
  }
}
