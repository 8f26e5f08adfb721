/** When the text walk through a YAML tree goes astray: exactly when another key takes the path. */
module YamlAmbiguity {
  import opened Prelude
  import opened Text
  import opened Decimals
  import opened YamlWalk

  // ------------------------------------------------------------------- lines of a tree

  /** `line` is that of a key or an item somewhere below `node`. */
  ghost predicate Below(node: Node, line: nat) {
    match node
    case Scalar(_) => false
    case Alias(_, _) => false
    case Mapping(entries, _) =>
      exists i | 0 <= i < |entries| :: entries[i].keyLine == line || Below(entries[i].value, line)
    case Sequence(items, _) =>
      exists i | 0 <= i < |items| :: items[i].line == line || Below(items[i], line)
  }

  ghost predicate InEntry(e: Entry, line: nat) {
    e.keyLine == line || Below(e.value, line)
  }

  ghost predicate Disjoint(a: Entry, b: Entry) {
    forall line :: !(InEntry(a, line) && InEntry(b, line))
  }

  /** Lines tell elements apart: entries of one mapping share none, and what is below an element does
      not begin on its line. */
  ghost predicate Apart(node: Node) {
    match node
    case Scalar(_) => true
    case Alias(_, _) => true
    case Mapping(entries, _) =>
      && (forall i, j | 0 <= i < j < |entries| :: Disjoint(entries[i], entries[j]))
      && forall i | 0 <= i < |entries| :: !Below(entries[i].value, entries[i].keyLine) && Apart(entries[i].value)
    case Sequence(items, _) =>
      forall i | 0 <= i < |items| :: !Below(items[i], items[i].line) && Apart(items[i])
  }

  ghost predicate Within(inner: Node, outer: Node) {
    forall line | Below(inner, line) :: Below(outer, line)
  }

  // ------------------------------------------------------------------ where walks end

  /** A hit made inside `node`, or none past the line so far. */
  ghost predicate Ends(node: Node, hit: Hit, matched: nat) {
    && (hit.line == matched || Below(node, hit.line))
    && (hit.next.Some? ==> Regular(hit.next.value) && Within(hit.next.value, node))
  }

  lemma ItemEnds(node: Node, i: nat, hit: Hit, matched: nat)
    requires node.Sequence? && i < |node.items| && Ends(node.items[i], hit, node.items[i].line)
    ensures Ends(node, hit, matched)
  {
    assert Below(node, node.items[i].line) && Within(node.items[i], node);
  }

  lemma {:induction false} IndexedWithin(node: Node, remaining: string, matched: nat)
    requires Indexed(node, remaining, matched).Some? && Regular(node)
    ensures Ends(node, Indexed(node, remaining, matched).value, matched)
    decreases |remaining|
  {
    if HasPrefix(remaining, "[") {
      var end := IndexOf(remaining, ']');
      var idx := Atoi(remaining[1..end]);
      if node.Sequence? && idx.value < |node.items| {
        var item, more := node.items[idx.value], remaining[end + 1..];
        assert Indexed(node, remaining, matched) == Indexed(item, more, item.line);
        IndexedWithin(item, more, item.line);
        ItemEnds(node, idx.value, Indexed(item, more, item.line).value, matched);
      }
    }
  }

  lemma TriedWithin(e: Entry, path: string)
    requires Tried(e, path).Some? && Regular(e.value)
    ensures var hit := Tried(e, path).value;
            && InEntry(e, hit.line)
            && (hit.next.Some? ==> Regular(hit.next.value) && Within(hit.next.value, e.value))
  {
    var after := path[|e.key|..];
    if HasPrefix(after, "[") {
      IndexedWithin(e.value, after, 0);
    }
  }

  /** The first hit is made by some candidate, no later than any that matches. */
  lemma {:induction false} FirstHitAt(cs: seq<Entry>, path: string, i: nat) returns (k: nat)
    requires Falling(cs) && i < |cs| && Tried(cs[i], path).Some?
    ensures k <= i && Tried(cs[k], path).Some? && FirstHit(cs, path) == Tried(cs[k], path)
    ensures |cs[k].key| >= |cs[i].key|
    decreases |cs|
  {
    if Tried(cs[0], path).Some? {
      k := 0;
    } else {
      k := FirstHitAt(cs[1..], path, i - 1);
      k := k + 1;
    }
  }

  lemma {:induction false} FirstHitFrom(cs: seq<Entry>, path: string) returns (k: nat)
    requires FirstHit(cs, path).Some?
    ensures k < |cs| && Tried(cs[k], path).Some? && FirstHit(cs, path) == Tried(cs[k], path)
    decreases |cs|
  {
    if Tried(cs[0], path).Some? {
      k := 0;
    } else {
      k := FirstHitFrom(cs[1..], path);
      k := k + 1;
    }
  }

  lemma {:induction false} DeepestWithin(node: Node, remaining: string, line: nat)
    requires Regular(node)
    ensures var l := Deepest(Some(node), remaining, line); l == line || Below(node, l)
    decreases |remaining|
  {
    if remaining != "" && Descended(node, remaining).Some? {
      var cs := LongestFirst(node.entries);
      var k := FirstHitFrom(cs, remaining);
      SameEntries(node.entries, cs[k]);
      DeepestInEntry(cs[k], remaining);
    }
  }

  /** Once a candidate has matched, the walk ends inside its entry. */
  lemma {:induction false} DeepestInEntry(e: Entry, path: string)
    requires Tried(e, path).Some? && Regular(e.value)
    ensures var hit := Tried(e, path).value; InEntry(e, Deepest(hit.next, hit.rest, hit.line))
    decreases |path|, 0
  {
    TriedWithin(e, path);
    var hit := Tried(e, path).value;
    if hit.next.Some? {
      DeepestWithin(hit.next.value, hit.rest, hit.line);
    }
  }

  lemma {:induction false} WalkWithin(node: Node, steps: seq<Step>, line: nat)
    ensures var l := Walk(node, steps, line); l == line || Below(node, l)
    decreases |steps|
  {
    if steps != [] && Child(node, steps[0]).Some? {
      var (next, at) := Child(node, steps[0]).value;
      WalkWithin(next, steps[1..], at);
      if steps[0].Key? {
        FirstWithIsMember(node.entries, steps[0].name);
      }
    }
  }

  // --------------------------------------------------------------------- the exact condition

  lemma {:induction false} LandedApart(node: Node, indices: seq<nat>, matched: nat, keyLine: nat)
    requires Regular(node) && Apart(node) && !Below(node, Reported(matched, keyLine))
    ensures var (n, line) := Landed(node, indices, matched);
            n.Some? ==> Regular(n.value) && Apart(n.value) && !Below(n.value, Reported(line, keyLine))
    decreases |indices|
  {
    if indices != [] && node.Sequence? && indices[0] < |node.items| {
      LandedApart(node.items[indices[0]], indices[1..], node.items[indices[0]].line, keyLine);
    }
  }

  /** Sorting the candidates keeps the entries. */
  lemma SameEntries(cs: seq<Entry>, e: Entry)
    ensures e in LongestFirst(cs) <==> e in cs
  {
    LongestFirstSpec(cs);
    assert e in multiset(LongestFirst(cs)) <==> e in multiset(cs);
  }

  /** A contested path is taken by a key other than the name. */
  lemma ContestedHit(cs: seq<Entry>, name: string, path: string) returns (e: Entry)
    requires Contested(cs, name, path)
    ensures e in cs && (FirstWith(cs, name).Some? ==> e.key != name)
    ensures Tried(e, path).Some? && FirstHit(LongestFirst(cs), path) == Tried(e, path)
  {
    var sorted := LongestFirst(cs);
    var i :| 0 <= i < |cs| && Tried(cs[i], path).Some? && (FirstWith(cs, name).Some? ==> |cs[i].key| > |name|);
    LongestFirstSpec(cs);
    SameEntries(cs, cs[i]);
    var j :| 0 <= j < |sorted| && sorted[j] == cs[i];
    var k := FirstHitAt(sorted, path, j);
    e := sorted[k];
    SameEntries(cs, e);
  }

  /** A contested path ends in the entry of a key other than the name. */
  lemma ContestedGoesElsewhere(node: Node, name: string, path: string, line: nat) returns (e: Entry)
    requires node.Mapping? && Regular(node) && path != "" && Contested(node.entries, name, path)
    ensures e in node.entries && (FirstWith(node.entries, name).Some? ==> e.key != name)
    ensures InEntry(e, Deepest(Some(node), path, line))
  {
    e := ContestedHit(node.entries, name, path);
    DeepestInEntry(e, path);
  }

  lemma EntriesApart(node: Node, a: Entry, b: Entry, line: nat)
    requires node.Mapping? && Apart(node) && a in node.entries && b in node.entries && a.key != b.key
    ensures !(InEntry(a, line) && InEntry(b, line))
  {
    var i :| 0 <= i < |node.entries| && node.entries[i] == a;
    var j :| 0 <= j < |node.entries| && node.entries[j] == b;
    if i < j {
      assert Disjoint(node.entries[i], node.entries[j]);
    } else {
      assert Disjoint(node.entries[j], node.entries[i]);
    }
  }

  /** A contested path never ends where the walk over the steps does. */
  lemma ContestedDiffers(node: Node, segments: seq<Segment>, line: nat)
    requires node.Mapping? && Regular(node) && Apart(node) && !Below(node, line)
    requires segments != [] && AllNamed(segments)
    requires Contested(node.entries, segments[0].name, segments[0].name + Behind(segments[0], segments[1..]))
    ensures Deepest(Some(node), Rendered(segments), line) != Walk(node, Steps(segments), line)
  {
    var s, steps := segments[0], Steps(segments);
    var path := s.name + Behind(s, segments[1..]);
    assert path == Rendered(segments);
    var taken := ContestedGoesElsewhere(node, s.name, path, line);
    assert steps[0] == Key(s.name);
    if FirstWith(node.entries, s.name).Some? {
      FirstWithIsMember(node.entries, s.name);
      var named := FirstWith(node.entries, s.name).value;
      WalkWithin(named.value, steps[1..], named.keyLine);
      EntriesApart(node, taken, named, Walk(node, steps, line));
    }
  }

  /** On trees whose lines tell elements apart the two walks agree exactly where no other key takes
      the path. */
  lemma {:induction false} WalksAgreeIffUnambiguous(node: Node, segments: seq<Segment>, line: nat)
    requires Regular(node) && Apart(node) && !Below(node, line) && AllNamed(segments)
    ensures Deepest(Some(node), Rendered(segments), line) == Walk(node, Steps(segments), line)
            <==> Unambiguous(node, segments)
    decreases |segments|
  {
    if Unambiguous(node, segments) {
      DeepestIsWalk(node, segments, line);
    } else {
      var s, rest := segments[0], segments[1..];
      if Contested(node.entries, s.name, s.name + Behind(s, rest)) {
        ContestedDiffers(node, segments, line);
      } else {
        DeepestNext(node, segments, line);
        WalkNext(node, segments, line);
        FirstWithIsMember(node.entries, s.name);
        var e := FirstWith(node.entries, s.name).value;
        LandedApart(e.value, s.indices, 0, e.keyLine);
        var (n, reached) := Landed(e.value, s.indices, 0);
        WalksAgreeIffUnambiguous(n.value, rest, Reported(reached, e.keyLine));
      }
    }
  }

  // --------------------------------------------------- in terms of the deepest element's line

  lemma ReachedNext(root: Node, steps: seq<Step>, n: nat)
    requires n < |steps|
    ensures Reached(root, steps[..n + 1]) ==
            if Reached(root, steps[..n]).None? then None else Child(Reached(root, steps[..n]).value.0, steps[n])
  {
    assert steps[..n + 1][..n] == steps[..n];
  }

  lemma {:induction false} WalkFrom(root: Node, steps: seq<Step>, n: nat)
    requires n <= |steps| && Reached(root, steps[..n]).Some?
    ensures var (node, line) := Reached(root, steps[..n]).value;
            Walk(root, steps, 0) == Walk(node, steps[n..], line)
    decreases n
  {
    if n == 0 {
      assert steps[0..] == steps && steps[..0] == [];
    } else {
      ReachedNext(root, steps, n - 1);
      WalkFrom(root, steps, n - 1);
      assert steps[n - 1..][1..] == steps[n..];
    }
  }

  /** The line of the deepest element is unique. */
  lemma DeepestLineIsWalk(root: Node, steps: seq<Step>, line: nat)
    requires LineOfDeepest(root, steps, line)
    ensures line == Walk(root, steps, 0)
  {
    var n :| 0 <= n <= |steps| && Reached(root, steps[..n]).Some? && Reached(root, steps[..n]).value.1 == line &&
             (n < |steps| ==> Reached(root, steps[..n + 1]).None?);
    WalkFrom(root, steps, n);
    if n < |steps| {
      ReachedNext(root, steps, n);
      assert steps[n..][0] == steps[n];
    }
  }

  /** The text walk finds the line of the deepest existing element if and only if at no mapping on
      the way another key takes the rest of the path. */
  lemma TextWalkIsRightIff(root: Node, segments: seq<Segment>)
    requires Regular(root) && Apart(root) && !Below(root, 0) && AllNamed(segments)
    ensures LineOfDeepest(root, Steps(segments), Deepest(Some(root), Rendered(segments), 0))
            <==> Unambiguous(root, segments)
  {
    WalksAgreeIffUnambiguous(root, segments, 0);
    if Unambiguous(root, segments) {
      TextWalkFindsDeepest(root, segments);
    } else if LineOfDeepest(root, Steps(segments), Deepest(Some(root), Rendered(segments), 0)) {
      DeepestLineIsWalk(root, Steps(segments), Deepest(Some(root), Rendered(segments), 0));
    }
  }

  // ---------------------------------------------------------------------------- an instance

  /** Services `my` (line 2, its `image` on line 3) and `my.image` (line 5). */
  function TwoServices(): Node {
    Mapping([Entry("my", 2, Mapping([Entry("image", 3, Scalar(3))], 3)),
             Entry("my.image", 5, Scalar(5))], 2)
  }

  function ImageOfMy(): seq<Segment> {
    [Segment("my", []), Segment("image", [])]
  }

  lemma ImageOfMyText()
    ensures Rendered(ImageOfMy()) == "my.image" == "my" + Behind(ImageOfMy()[0], ImageOfMy()[1..])
    ensures Steps(ImageOfMy()) == [Key("my"), Key("image")]
  {
    var rest := ImageOfMy()[1..];
    assert rest == [Segment("image", [])] && rest[1..] == [];
    assert Rendered(rest) == "image" && Steps(rest) == [Key("image")];
  }

  lemma LineOfImage()
    ensures LineOfDeepest(TwoServices(), [Key("my"), Key("image")], 3)
  {
    var root, steps := TwoServices(), [Key("my"), Key("image")];
    ReachedNext(root, steps, 0);
    ReachedNext(root, steps, 1);
    assert steps[..0] == [] && steps[..2] == steps;
    assert Reached(root, steps[..2]).value.1 == 3;
  }

  lemma DottedKeyMatches()
    ensures Contested(TwoServices().entries, "my", "my.image")
    ensures Deepest(Some(TwoServices()), "my.image", 0) == 5
  {
    var root := TwoServices();
    var taken := root.entries[1];
    assert "my.image"[..8] == taken.key && "my.image"[8..] == "";
    assert Tried(taken, "my.image") == Some(Hit(Some(Scalar(5)), "", 5));
    assert root.entries[1..] == [taken] && LongestFirst([taken]) == [taken];
    assert LongestFirst(root.entries) == [taken, root.entries[0]];
  }

  /** Asked for the image of `my`, the walk answers with the line of the service `my.image`. */
  lemma DottedServiceTakesThePath()
    ensures Deepest(Some(TwoServices()), Rendered(ImageOfMy()), 0) == 5
    ensures LineOfDeepest(TwoServices(), Steps(ImageOfMy()), 3)
    ensures !Unambiguous(TwoServices(), ImageOfMy())
  {
    ImageOfMyText();
    LineOfImage();
    DottedKeyMatches();
  }
}
