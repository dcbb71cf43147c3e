/** What `build_tree` (bowl.py:220-238) promises: where each item ends up,
    exactly when it raises, and the order in which groups keep their children. */
module CommandTreeLemmas {
  import opened Wrappers
  import opened CommandTree

  lemma PrefixCons(q: seq<string>, p: seq<string>)
    requires |q| > 0 && |p| > 0 && q[0] == p[0]
    ensures IsPrefix(q, p) <==> IsPrefix(q[1..], p[1..])
    ensures IsProperPrefix(q, p) <==> IsProperPrefix(q[1..], p[1..])
    ensures q == p <==> q[1..] == p[1..]
  {
    assert q == [q[0]] + q[1..];
    assert p == [p[0]] + p[1..];
    if |q| <= |p| {
      assert p[..|q|] == [p[0]] + p[1..][..|q| - 1];
    }
  }

  lemma AppendAssoc(a: seq<string>, b: seq<string>, c: seq<string>)
    ensures (a + b) + c == a + (b + c)
  {
  }

  /** Following a prefix of `p` from a group whose child at `p[0]` is `c`. */
  lemma ResolvePrefixStep<T>(d: Dict<T>, p: seq<string>, k: nat, c: Tree<T>)
    requires 0 < k <= |p| && Lookup(d, p[0]) == Some(c)
    ensures Resolve(Group(d), p[..k]) == Resolve(c, p[1..][..k - 1])
  {
    assert p[..k][0] == p[0];
    assert p[..k][1..] == p[1..][..k - 1];
  }

  /** A successful insertion puts the item at its path, turns every proper
      prefix of the path into a group, and changes nothing anywhere else. */
  lemma {:induction false} PlaceResolve<T>(place: Dict<T>, walked: seq<string>, rest: seq<string>, item: T, q: seq<string>)
    requires |rest| > 0 && Place(place, walked, rest, item).Success?
    ensures q == rest ==> LeafAt(Group(Place(place, walked, rest, item).value), q, item)
    ensures IsProperPrefix(q, rest) ==> GroupAt(Group(Place(place, walked, rest, item).value), q)
    ensures !IsPrefix(q, rest) ==> Resolve(Group(Place(place, walked, rest, item).value), q) == Resolve(Group(place), q)
    decreases |rest|
  {
    if |q| == 0 {
      return;
    }
    var step := rest[0];
    if |rest| == 1 {
      PlaceResolveLast(place, walked, rest, item, q);
    } else {
      var child := Lookup(place, step);
      var sub := if child.Some? then child.value.children else [];
      var sub' := Place(sub, walked + [step], rest[1..], item).value;
      PutLookup(place, step, Group(sub'), q[0]);
      if q[0] == step {
        PlaceResolve(sub, walked + [step], rest[1..], item, q[1..]);
        PrefixCons(q, rest);
      }
    }
  }

  /** The base case of `PlaceResolve`: the last segment is stored directly. */
  lemma PlaceResolveLast<T>(place: Dict<T>, walked: seq<string>, rest: seq<string>, item: T, q: seq<string>)
    requires |rest| == 1 && |q| > 0 && Place(place, walked, rest, item).Success?
    ensures q == rest ==> LeafAt(Group(Place(place, walked, rest, item).value), q, item)
    ensures IsProperPrefix(q, rest) ==> GroupAt(Group(Place(place, walked, rest, item).value), q)
    ensures !IsPrefix(q, rest) ==> Resolve(Group(Place(place, walked, rest, item).value), q) == Resolve(Group(place), q)
  {
    var step := rest[0];
    PutLookup(place, step, Leaf(item), q[0]);
    if q[0] == step {
      PrefixCons(q, rest);
    }
  }

  lemma EmptyGroupHoldsNothing<T>(p: seq<string>)
    requires |p| > 0
    ensures Resolve(Tree<T>.Group([]), p).None?
  {
  }

  /** The insertion raises exactly when the path is blocked: a proper prefix
      of it holds an item, or the path itself is already taken. */
  lemma {:induction false} PlaceFails<T>(place: Dict<T>, walked: seq<string>, rest: seq<string>, item: T)
    requires |rest| > 0
    ensures Place(place, walked, rest, item).Failure? <==> Blocked(Group(place), rest)
    decreases |rest|
  {
    var t := Group(place);
    var step := rest[0];
    var child := Lookup(place, step);
    if |rest| == 1 {
      assert rest[1..] == [];
      assert Resolve(t, rest) == child;
      return;
    }
    assert rest[..1] == [step];
    assert Resolve(t, rest[..1]) == child;
    if child.Some? && child.value.Leaf? {
      assert Blocked(t, rest);
      return;
    }
    var sub := if child.Some? then child.value.children else [];
    PlaceFails(sub, walked + [step], rest[1..], item);
    if child.None? {
      assert !Blocked(Group(sub), rest[1..]) by {
        EmptyGroupHoldsNothing<T>(rest[1..]);
        forall k | 0 < k < |rest[1..]| ensures Resolve(Group(sub), rest[1..][..k]).None? {
          EmptyGroupHoldsNothing<T>(rest[1..][..k]);
        }
      }
      assert !Blocked(t, rest) by {
        forall k | 0 < k <= |rest| ensures Resolve(t, rest[..k]).None? {
          assert rest[..k][0] == step;
        }
        assert rest[..|rest|] == rest;
      }
    } else {
      var c := child.value;
      assert rest[1..][..|rest| - 1] == rest[1..];
      ResolvePrefixStep(place, rest, |rest|, c);
      assert rest[..|rest|] == rest;
      if Blocked(t, rest) && Resolve(t, rest).None? {
        var k :| 0 < k < |rest| && Resolve(t, rest[..k]).Some? && Resolve(t, rest[..k]).value.Leaf?;
        ResolvePrefixStep(place, rest, k, c);
        assert Resolve(Group(sub), rest[1..][..k - 1]).Some?;
        assert 0 < k - 1 < |rest[1..]|;
      }
      if Blocked(Group(sub), rest[1..]) && Resolve(Group(sub), rest[1..]).None? {
        var k :| 0 < k < |rest[1..]| && Resolve(Group(sub), rest[1..][..k]).Some? && Resolve(Group(sub), rest[1..][..k]).value.Leaf?;
        ResolvePrefixStep(place, rest, k + 1, c);
        assert Resolve(t, rest[..k + 1]).Some?;
      }
    }
  }

  /** The AssertionError names the first prefix of the path at which the walk
      stops: the first one holding an item, or else the whole path, which is
      then occupied; every shorter prefix is a group. */
  lemma {:induction false} PlaceCollisionAt<T>(place: Dict<T>, walked: seq<string>, rest: seq<string>, item: T)
    requires |rest| > 0 && Place(place, walked, rest, item).Failure?
    ensures var e := Place(place, walked, rest, item).error;
      var n := |e.at| - |walked|;
      && e.Collision?
      && 0 < n <= |rest|
      && e.at == walked + rest[..n]
      && Resolve(Group(place), rest[..n]).Some?
      && (n < |rest| ==> Resolve(Group(place), rest[..n]).value.Leaf?)
      && forall k :: 0 < k < n ==> GroupAt(Group(place), rest[..k])
    decreases |rest|
  {
    var t := Group(place);
    var step := rest[0];
    var child := Lookup(place, step);
    if |rest| == 1 || (child.Some? && child.value.Leaf?) {
      PlaceCollisionHere(place, walked, rest, item);
      return;
    }
    var sub := if child.Some? then child.value.children else [];
    PlaceCollisionAt(sub, walked + [step], rest[1..], item);
    var e := Place(place, walked, rest, item).error;
    var m := |e.at| - |walked| - 1;
    if child.None? {
      assert false;
    }
    var c := child.value;
    ResolvePrefixStep(place, rest, m + 1, c);
    assert e.at == walked + rest[..m + 1] by {
      var e' := Place(sub, walked + [step], rest[1..], item).error;
      assert e == e';
      assert e'.at == (walked + [step]) + rest[1..][..m];
      AppendAssoc(walked, [step], rest[1..][..m]);
      assert rest[..m + 1] == [step] + rest[1..][..m];
    }
    forall k | 0 < k < m + 1 ensures GroupAt(t, rest[..k]) {
      ResolvePrefixStep(place, rest, k, c);
    }
  }

  /** The base cases of `PlaceCollisionAt`: the walk stops at the first
      segment. */
  lemma PlaceCollisionHere<T>(place: Dict<T>, walked: seq<string>, rest: seq<string>, item: T)
    requires |rest| > 0 && Place(place, walked, rest, item).Failure?
    requires |rest| == 1 || (Lookup(place, rest[0]).Some? && Lookup(place, rest[0]).value.Leaf?)
    ensures var e := Place(place, walked, rest, item).error;
      var n := |e.at| - |walked|;
      && e.Collision?
      && 0 < n <= |rest|
      && e.at == walked + rest[..n]
      && Resolve(Group(place), rest[..n]).Some?
      && (n < |rest| ==> Resolve(Group(place), rest[..n]).value.Leaf?)
      && forall k :: 0 < k < n ==> GroupAt(Group(place), rest[..k])
  {
    assert rest[..1] == [rest[0]];
    assert Resolve(Group(place), rest[..1]) == Lookup(place, rest[0]);
    if |rest| == 1 {
      assert rest[..1] == rest;
    }
  }

  /** No path is empty, and no item's path is a prefix of (or equal to)
      another item's path. */
  predicate ConflictFree<T>(items: seq<T>, getpath: T -> seq<string>) {
    && (forall i :: 0 <= i < |items| ==> |getpath(items[i])| > 0)
    && (forall i, j :: 0 <= i < j < |items| ==>
          !IsPrefix(getpath(items[i]), getpath(items[j])) && !IsPrefix(getpath(items[j]), getpath(items[i])))
  }

  lemma ConflictFreeSnoc<T>(items: seq<T>, getpath: T -> seq<string>)
    requires |items| > 0
    ensures var n := |items| - 1;
      var p := getpath(items[n]);
      ConflictFree(items, getpath) <==>
        && ConflictFree(items[..n], getpath)
        && |p| > 0
        && forall i :: 0 <= i < n ==> !IsPrefix(getpath(items[i]), p) && !IsPrefix(p, getpath(items[i]))
  {
    var n := |items| - 1;
    assert forall i :: 0 <= i < n ==> items[..n][i] == items[i];
  }

  /** Some item has path `q` and is `y`. */
  predicate HasPath<T(==)>(items: seq<T>, getpath: T -> seq<string>, q: seq<string>, y: T) {
    exists i :: 0 <= i < |items| && getpath(items[i]) == q && items[i] == y
  }

  /** `q` is a proper prefix of some item's path. */
  predicate UnderPath<T>(items: seq<T>, getpath: T -> seq<string>, q: seq<string>) {
    exists i :: 0 <= i < |items| && IsProperPrefix(q, getpath(items[i]))
  }

  lemma PathsSnoc<T>(items: seq<T>, getpath: T -> seq<string>, q: seq<string>, y: T)
    requires |items| > 0
    ensures var n := |items| - 1;
      && (HasPath(items, getpath, q, y) <==> HasPath(items[..n], getpath, q, y) || (getpath(items[n]) == q && items[n] == y))
      && (UnderPath(items, getpath, q) <==> UnderPath(items[..n], getpath, q) || IsProperPrefix(q, getpath(items[n])))
  {
    var n := |items| - 1;
    assert forall i :: 0 <= i < n ==> items[..n][i] == items[i];
    if HasPath(items, getpath, q, y) && !(getpath(items[n]) == q && items[n] == y) {
      var i :| 0 <= i < |items| && getpath(items[i]) == q && items[i] == y;
      assert items[..n][i] == items[i];
    }
    if UnderPath(items, getpath, q) && !IsProperPrefix(q, getpath(items[n])) {
      var i :| 0 <= i < |items| && IsProperPrefix(q, getpath(items[i]));
      assert items[..n][i] == items[i];
    }
  }

  /** One successful insertion adds exactly one leaf, the new item at its
      path, and exactly the groups on the way to it. */
  lemma InsertShape<T>(d: Dict<T>, p: seq<string>, x: T, q: seq<string>, y: T)
    requires |p| > 0 && Place(d, [], p, x).Success?
    ensures LeafAt(Group(Place(d, [], p, x).value), q, y) <==> LeafAt(Group(d), q, y) || (q == p && y == x)
    ensures GroupAt(Group(Place(d, [], p, x).value), q) <==> GroupAt(Group(d), q) || IsProperPrefix(q, p)
  {
    var t := Group(d);
    var t' := Group(Place(d, [], p, x).value);
    PlaceResolve(d, [], p, x, q);
    PlaceFails(d, [], p, x);
    assert !Blocked(t, p);
    if q == p {
      assert Resolve(t, p).None?;
      assert Resolve(t', q) == Some(Leaf(x));
    } else if IsProperPrefix(q, p) {
      assert GroupAt(t', q);
      if |q| > 0 {
        assert p[..|q|] == q;
        assert !(Resolve(t, p[..|q|]).Some? && Resolve(t, p[..|q|]).value.Leaf?);
      }
      assert !LeafAt(t, q, y);
    } else {
      assert !IsPrefix(q, p);
      assert Resolve(t', q) == Resolve(t, q);
    }
  }

  /** Where every item ends up: a leaf holds exactly the items whose path
      leads to it, and the groups are exactly the root and the proper
      prefixes of the paths. */
  lemma {:induction false} BuildTreeShape<T>(items: seq<T>, getpath: T -> seq<string>, q: seq<string>, y: T)
    requires BuildTree(items, getpath).Success?
    ensures LeafAt(Group(BuildTree(items, getpath).value), q, y) <==> HasPath(items, getpath, q, y)
    ensures GroupAt(Group(BuildTree(items, getpath).value), q) <==> q == [] || UnderPath(items, getpath, q)
    decreases |items|
  {
    if |items| == 0 {
      if |q| > 0 {
        EmptyGroupHoldsNothing<T>(q);
      }
      return;
    }
    var n := |items| - 1;
    var init := items[..n];
    var last := items[n];
    var p := getpath(last);
    var d := BuildTree(init, getpath).value;
    assert BuildTree(items, getpath) == Place(d, [], p, last);
    BuildTreeShape(init, getpath, q, y);
    PathsSnoc(items, getpath, q, y);
    InsertShape(d, p, last, q, y);
  }

  /** Inserting `p` into the tree built so far is blocked exactly when some
      earlier path is a prefix of `p` or has `p` as a prefix. */
  lemma BlockedByEarlier<T>(items: seq<T>, getpath: T -> seq<string>, p: seq<string>)
    requires BuildTree(items, getpath).Success? && ConflictFree(items, getpath) && |p| > 0
    ensures Blocked(Group(BuildTree(items, getpath).value), p)
        <==> exists i :: 0 <= i < |items| && (IsPrefix(getpath(items[i]), p) || IsPrefix(p, getpath(items[i])))
  {
    var t := Group(BuildTree(items, getpath).value);
    if Blocked(t, p) {
      if Resolve(t, p).Some? {
        match Resolve(t, p).value
        case Leaf(y) =>
          BuildTreeShape(items, getpath, p, y);
          var i :| 0 <= i < |items| && getpath(items[i]) == p && items[i] == y;
          assert IsPrefix(getpath(items[i]), p);
        case Group(_) =>
          BuildTreeShape(items, getpath, p, items[0]);
          var i :| 0 <= i < |items| && IsProperPrefix(p, getpath(items[i]));
          assert IsPrefix(p, getpath(items[i]));
      } else {
        var k :| 0 < k < |p| && Resolve(t, p[..k]).Some? && Resolve(t, p[..k]).value.Leaf?;
        var y := Resolve(t, p[..k]).value.item;
        BuildTreeShape(items, getpath, p[..k], y);
        var i :| 0 <= i < |items| && getpath(items[i]) == p[..k] && items[i] == y;
        assert IsPrefix(getpath(items[i]), p);
      }
    }
    if exists i :: 0 <= i < |items| && (IsPrefix(getpath(items[i]), p) || IsPrefix(p, getpath(items[i]))) {
      var i :| 0 <= i < |items| && (IsPrefix(getpath(items[i]), p) || IsPrefix(p, getpath(items[i])));
      var pi := getpath(items[i]);
      if pi == p {
        BuildTreeShape(items, getpath, p, items[i]);
      } else if IsPrefix(pi, p) {
        BuildTreeShape(items, getpath, pi, items[i]);
        assert p[..|pi|] == pi;
        assert Resolve(t, p[..|pi|]).Some? && Resolve(t, p[..|pi|]).value.Leaf?;
      } else {
        BuildTreeShape(items, getpath, p, items[i]);
      }
    }
  }

  /** `build_tree` returns normally exactly when the paths are conflict-free;
      otherwise it raises (bowl.py:231-236). */
  lemma {:induction false} BuildTreeSucceeds<T>(items: seq<T>, getpath: T -> seq<string>)
    ensures BuildTree(items, getpath).Success? <==> ConflictFree(items, getpath)
    decreases |items|
  {
    if |items| == 0 {
      return;
    }
    var n := |items| - 1;
    var init := items[..n];
    var last := items[n];
    var p := getpath(last);
    ConflictFreeSnoc(items, getpath);
    BuildTreeSucceeds(init, getpath);
    assert forall i :: 0 <= i < n ==> init[i] == items[i];
    if BuildTree(init, getpath).Failure? || |p| == 0 {
      return;
    }
    var d := BuildTree(init, getpath).value;
    PlaceFails(d, [], p, last);
    BlockedByEarlier(init, getpath, p);
  }

  lemma WalkGroupLeaves<T>(d: Dict<T>, at: seq<string>, q: seq<string>, x: T)
    requires WellFormed(Group(d))
    ensures IsPrefix(at, q) && LeafAt(Group(d), q[|at|..], x)
        <==> exists j :: 0 <= j < |d| && IsPrefix(at + [d[j].0], q) && LeafAt(d[j].1, q[|at| + 1..], x)
  {
    if IsPrefix(at, q) && LeafAt(Group(d), q[|at|..], x) {
      var r := q[|at|..];
      var c := Lookup(d, r[0]).value;
      var j :| 0 <= j < |d| && d[j] == (r[0], c);
      assert q[..|at| + 1] == at + [d[j].0];
      assert q[|at| + 1..] == r[1..];
    }
    if exists j :: 0 <= j < |d| && IsPrefix(at + [d[j].0], q) && LeafAt(d[j].1, q[|at| + 1..], x) {
      var j :| 0 <= j < |d| && IsPrefix(at + [d[j].0], q) && LeafAt(d[j].1, q[|at| + 1..], x);
      var r := q[|at|..];
      assert q[..|at|] == (at + [d[j].0])[..|at|] == at;
      assert r[0] == d[j].0;
      LookupDistinct(d, j);
      assert r[1..] == q[|at| + 1..];
    }
  }

  lemma {:induction false} WalkTreeLeaves<T>(t: Tree<T>, at: seq<string>, q: seq<string>, x: T)
    requires WellFormed(t)
    ensures (q, x) in WalkTree(t, at) <==> IsPrefix(at, q) && LeafAt(t, q[|at|..], x)
    decreases t, 1, 0
  {
    match t
    case Leaf(y) =>
      if IsPrefix(at, q) && |q| == |at| {
        assert q == at;
      }
    case Group(d) =>
      WalkFromLeaves(d, 0, at, q, x);
      WalkGroupLeaves(d, at, q, x);
  }

  lemma {:induction false} WalkFromLeaves<T>(d: Dict<T>, i: nat, at: seq<string>, q: seq<string>, x: T)
    requires i <= |d| && WellFormed(Group(d))
    ensures (q, x) in WalkFrom(d, i, at)
        <==> exists j :: i <= j < |d| && IsPrefix(at + [d[j].0], q) && LeafAt(d[j].1, q[|at| + 1..], x)
    decreases Group(d), 0, |d| - i
  {
    if i < |d| {
      var k := at + [d[i].0];
      assert WellFormed(d[i].1);
      WalkTreeLeaves(d[i].1, k, q, x);
      WalkFromLeaves(d, i + 1, at, q, x);
      if IsPrefix(k, q) {
        assert q[|k|..] == q[|at| + 1..];
      }
    }
  }

  /** The `add` walk meets exactly the items given to `build_tree`, each at its
      own path: building and then walking recovers every (path, item) pair. */
  lemma BuildTreeWalk<T>(items: seq<T>, getpath: T -> seq<string>, q: seq<string>, x: T)
    requires BuildTree(items, getpath).Success?
    ensures (q, x) in WalkTree(Group(BuildTree(items, getpath).value), [])
        <==> exists i :: 0 <= i < |items| && getpath(items[i]) == q && items[i] == x
  {
    var t := Group(BuildTree(items, getpath).value);
    WalkTreeLeaves(t, [], q, x);
    BuildTreeShape(items, getpath, q, x);
    assert q[0..] == q;
  }

  /** Each distinct element of `s`, once, in the order of its first occurrence. */
  function FirstOccurrences(s: seq<string>): (r: seq<string>)
    ensures forall x :: x in r <==> x in s
    ensures forall i, j :: 0 <= i < j < |r| ==> r[i] != r[j]
    decreases |s|
  {
    if |s| == 0 then []
    else
      var init := s[..|s| - 1];
      var r := FirstOccurrences(init);
      assert s == init + [s[|s| - 1]];
      if s[|s| - 1] in r then r else r + [s[|s| - 1]]
  }

  /** The first segment of every item's path. */
  function Heads<T>(items: seq<T>, getpath: T -> seq<string>): seq<string>
    requires forall i :: 0 <= i < |items| ==> |getpath(items[i])| > 0
  {
    seq(|items|, i requires 0 <= i < |items| => getpath(items[i])[0])
  }

  /** The top-level groups and leaves come out in the order their first
      segment was first registered, not in sorted order (bowl.py:232-233, 237;
      the usage text of bowl.py:213 lists `{one,two}` in that order). */
  lemma {:induction false} BuildTreeKeyOrder<T>(items: seq<T>, getpath: T -> seq<string>)
    requires BuildTree(items, getpath).Success?
    ensures forall i :: 0 <= i < |items| ==> |getpath(items[i])| > 0
    ensures Keys(BuildTree(items, getpath).value) == FirstOccurrences(Heads(items, getpath))
    decreases |items|
  {
    BuildTreeSucceeds(items, getpath);
    if |items| == 0 {
      return;
    }
    var n := |items| - 1;
    var init := items[..n];
    BuildTreeKeyOrder(init, getpath);
    assert Heads(items, getpath)[..n] == Heads(init, getpath);
  }

  /** For each item whose path passes through `q`, the segment that follows
      `q`, in item order: the keys a walk down to `q` would create. */
  function ChildSegments<T>(items: seq<T>, getpath: T -> seq<string>, q: seq<string>): seq<string>
    decreases |items|
  {
    if |items| == 0 then []
    else
      var p := getpath(items[|items| - 1]);
      ChildSegments(items[..|items| - 1], getpath, q) + (if IsProperPrefix(q, p) then [p[|q|]] else [])
  }

  /** No item passes through `q`, so nothing follows it. */
  lemma {:induction false} ChildSegmentsNone<T>(items: seq<T>, getpath: T -> seq<string>, q: seq<string>)
    requires !UnderPath(items, getpath, q)
    ensures ChildSegments(items, getpath, q) == []
    decreases |items|
  {
    if |items| > 0 {
      var n := |items| - 1;
      PathsSnoc(items, getpath, q, items[0]);
      ChildSegmentsNone(items[..n], getpath, q);
    }
  }

  lemma FirstOccurrencesSnoc(s: seq<string>, x: string)
    ensures FirstOccurrences(s + [x])
         == if x in FirstOccurrences(s) then FirstOccurrences(s) else FirstOccurrences(s) + [x]
  {
    assert (s + [x])[..|s|] == s;
  }

  /** The key order of the group at `q` after one insertion whose path runs
      through `q`: an existing key keeps its place, a new one is appended, and
      a group the insertion creates holds just the next segment. */
  lemma {:induction false} PlaceGroupKeys<T>(place: Dict<T>, walked: seq<string>, rest: seq<string>, item: T, q: seq<string>)
    requires |rest| > 0 && Place(place, walked, rest, item).Success? && IsProperPrefix(q, rest)
    ensures GroupAt(Group(Place(place, walked, rest, item).value), q)
    ensures Keys(Resolve(Group(Place(place, walked, rest, item).value), q).value.children)
         == if GroupAt(Group(place), q) then
              var ks := Keys(Resolve(Group(place), q).value.children);
              if rest[|q|] in ks then ks else ks + [rest[|q|]]
            else [rest[|q|]]
    decreases |rest|
  {
    PlaceResolve(place, walked, rest, item, q);
    if |q| == 0 {
      return;
    }
    var step := rest[0];
    var child := Lookup(place, step);
    var sub := if child.Some? then child.value.children else [];
    var sub' := Place(sub, walked + [step], rest[1..], item).value;
    var r := Place(place, walked, rest, item).value;
    assert r == Put(place, step, Group(sub'));
    PutLookup(place, step, Group(sub'), step);
    assert q[0] == step;
    assert Resolve(Group(r), q) == Resolve(Group(sub'), q[1..]);
    PrefixCons(q, rest);
    assert rest[1..][|q| - 1] == rest[|q|];
    PlaceGroupKeys(sub, walked + [step], rest[1..], item, q[1..]);
    if child.Some? {
      assert Resolve(Group(place), q) == Resolve(Group(sub), q[1..]);
    } else if |q| > 1 {
      EmptyGroupHoldsNothing<T>(q[1..]);
    }
  }

  /** Every group of a built tree keeps its children in the order in which
      their segment was first registered below it, not in sorted order
      (bowl.py:232-233, 237): `prog two --help` lists `a` before `b` when
      `two_a` came first. */
  lemma {:induction false} GroupKeyOrder<T>(items: seq<T>, getpath: T -> seq<string>, q: seq<string>)
    requires BuildTree(items, getpath).Success?
    requires GroupAt(Group(BuildTree(items, getpath).value), q)
    ensures Keys(Resolve(Group(BuildTree(items, getpath).value), q).value.children)
         == FirstOccurrences(ChildSegments(items, getpath, q))
    decreases |items|
  {
    if |items| == 0 {
      if |q| > 0 {
        EmptyGroupHoldsNothing<T>(q);
      }
      return;
    }
    var n := |items| - 1;
    var init := items[..n];
    var last := items[n];
    var p := getpath(last);
    var d := BuildTree(init, getpath).value;
    var cs := ChildSegments(init, getpath, q);
    assert BuildTree(items, getpath) == Place(d, [], p, last);
    assert ChildSegments(items, getpath, q) == cs + (if IsProperPrefix(q, p) then [p[|q|]] else []);
    if IsProperPrefix(q, p) {
      PlaceGroupKeys(d, [], p, last, q);
      FirstOccurrencesSnoc(cs, p[|q|]);
      if GroupAt(Group(d), q) {
        GroupKeyOrder(init, getpath, q);
      } else {
        BuildTreeShape(init, getpath, q, last);
        ChildSegmentsNone(init, getpath, q);
        assert cs + [p[|q|]] == [p[|q|]];
        FirstOccurrencesSnoc([], p[|q|]);
        assert [] + [p[|q|]] == [p[|q|]];
      }
    } else {
      assert cs + [] == cs;
      PlaceResolve(d, [], p, last, q);
      if q == p {
        assert false;
      }
      assert !IsPrefix(q, p);
      GroupKeyOrder(init, getpath, q);
    }
  }

  /** The number of items stored below `t`. */
  function LeafCount<T>(t: Tree<T>): nat
    decreases t, 1, 0
  {
    match t
    case Leaf(_) => 1
    case Group(d) => LeafCountFrom(d, 0)
  }

  function LeafCountFrom<T>(d: Dict<T>, i: nat): nat
    requires i <= |d|
    decreases Group(d), 0, |d| - i
  {
    if i == |d| then 0 else LeafCount(d[i].1) + LeafCountFrom(d, i + 1)
  }

  /** The `add` walk registers one subparser per stored item. */
  lemma {:induction false} WalkTreeLength<T>(t: Tree<T>, at: seq<string>)
    ensures |WalkTree(t, at)| == LeafCount(t)
    decreases t, 1, 0
  {
    match t
    case Leaf(_) =>
    case Group(d) => WalkFromLength(d, 0, at);
  }

  lemma {:induction false} WalkFromLength<T>(d: Dict<T>, i: nat, at: seq<string>)
    requires i <= |d|
    ensures |WalkFrom(d, i, at)| == LeafCountFrom(d, i)
    decreases Group(d), 0, |d| - i
  {
    if i < |d| {
      WalkTreeLength(d[i].1, at + [d[i].0]);
      WalkFromLength(d, i + 1, at);
    }
  }

  lemma {:induction false} LeafCountShift<T>(d: Dict<T>, i: nat)
    requires 0 < i <= |d|
    ensures LeafCountFrom(d, i) == LeafCountFrom(d[1..], i - 1)
    decreases |d| - i
  {
    if i < |d| {
      assert d[1..][i - 1] == d[i];
      LeafCountShift(d, i + 1);
    }
  }

  /** `d[k] = v` replaces the items under `k`, if any, by those under `v`. */
  lemma {:induction false} PutLeafCount<T>(d: Dict<T>, k: string, v: Tree<T>)
    ensures LeafCountFrom(Put(d, k, v), 0) + (if Lookup(d, k).Some? then LeafCount(Lookup(d, k).value) else 0)
         == LeafCountFrom(d, 0) + LeafCount(v)
    decreases |d|
  {
    var r := Put(d, k, v);
    if |d| == 0 {
      assert LeafCountFrom(r, 1) == 0;
    } else {
      LeafCountShift(d, 1);
      LeafCountShift(r, 1);
      if d[0].0 == k {
        assert r[1..] == d[1..];
      } else {
        assert r[1..] == Put(d[1..], k, v);
        PutLeafCount(d[1..], k, v);
      }
    }
  }

  /** A successful insertion stores exactly one more item. */
  lemma {:induction false} PlaceLeafCount<T>(place: Dict<T>, walked: seq<string>, rest: seq<string>, item: T)
    requires |rest| > 0 && Place(place, walked, rest, item).Success?
    ensures LeafCountFrom(Place(place, walked, rest, item).value, 0) == LeafCountFrom(place, 0) + 1
    decreases |rest|
  {
    var step := rest[0];
    var r := Place(place, walked, rest, item).value;
    if |rest| == 1 {
      assert r == Put(place, step, Leaf(item));
      PutLeafCount(place, step, Leaf(item));
    } else {
      var child := Lookup(place, step);
      var sub := if child.Some? then child.value.children else [];
      var sub' := Place(sub, walked + [step], rest[1..], item).value;
      assert r == Put(place, step, Group(sub'));
      PlaceLeafCount(sub, walked + [step], rest[1..], item);
      PutLeafCount(place, step, Group(sub'));
    }
  }

  /** A built tree stores every item once: as many leaves as items. */
  lemma {:induction false} BuildTreeLeafCount<T>(items: seq<T>, getpath: T -> seq<string>)
    requires BuildTree(items, getpath).Success?
    ensures LeafCountFrom(BuildTree(items, getpath).value, 0) == |items|
    decreases |items|
  {
    if |items| > 0 {
      var n := |items| - 1;
      var d := BuildTree(items[..n], getpath).value;
      BuildTreeLeafCount(items[..n], getpath);
      PlaceLeafCount(d, [], getpath(items[n]), items[n]);
    }
  }

  /** The `add` walk over a built tree registers exactly as many subparsers
      as there were items; with `BuildTreeWalk`, each item exactly once. */
  lemma BuildTreeWalkLength<T>(items: seq<T>, getpath: T -> seq<string>)
    requires BuildTree(items, getpath).Success?
    ensures |WalkTree(Group(BuildTree(items, getpath).value), [])| == |items|
  {
    WalkTreeLength(Group(BuildTree(items, getpath).value), []);
    BuildTreeLeafCount(items, getpath);
  }
}
