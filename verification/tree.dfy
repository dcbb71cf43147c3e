/** The recursive dictionary of `build_tree` (bowl.py:220-238): a command tree
    whose groups keep their children in Python dict insertion order. */
module CommandTree {
  import opened Wrappers
  import Text

  /** A value stored in the tree: an item at a leaf, or a nested dictionary. */
  datatype Tree<T> = Leaf(item: T) | Group(children: seq<(string, Tree<T>)>)

  /** A Python dict from segment names to subtrees, as an association list in
      insertion order. */
  type Dict<T> = seq<(string, Tree<T>)>

  /** Why `build_tree` raises: `EmptyPath` is the IndexError of `path[-1]` on an
      empty path; `Collision(at)` is the AssertionError, with the path its
      message names. */
  datatype BuildError = EmptyPath | Collision(at: seq<string>)

  function Keys<T(==)>(d: Dict<T>): seq<string> {
    seq(|d|, i requires 0 <= i < |d| => d[i].0)
  }

  /** A Python dict never holds one key twice. */
  predicate DistinctKeys<T(==)>(d: Dict<T>) {
    forall i, j :: 0 <= i < j < |d| ==> d[i].0 != d[j].0
  }

  /** Every dictionary in the tree has distinct keys. */
  predicate WellFormed<T(==)>(t: Tree<T>)
    decreases t
  {
    match t
    case Leaf(_) => true
    case Group(d) =>
      && DistinctKeys(d)
      && forall i :: 0 <= i < |d| ==> WellFormed(d[i].1)
  }

  /** `d.get(k)`: the value at the first entry with key `k`. */
  function Lookup<T(==)>(d: Dict<T>, k: string): (r: Option<Tree<T>>)
    ensures r.None? <==> k !in Keys(d)
    ensures r.Some? ==> exists i :: 0 <= i < |d| && d[i] == (k, r.value)
    decreases |d|
  {
    if |d| == 0 then None
    else if d[0].0 == k then
      assert Keys(d)[0] == k;
      Some(d[0].1)
    else
      var r := Lookup(d[1..], k);
      assert Keys(d) == [d[0].0] + Keys(d[1..]);
      assert r.Some? ==> exists i :: 0 <= i < |d[1..]| && d[1..][i] == (k, r.value);
      r
  }

  lemma LookupDistinct<T>(d: Dict<T>, i: nat)
    requires DistinctKeys(d) && i < |d|
    ensures Lookup(d, d[i].0) == Some(d[i].1)
  {
    var r := Lookup(d, d[i].0);
    assert d[i].0 in Keys(d) by { assert Keys(d)[i] == d[i].0; }
    var j :| 0 <= j < |d| && d[j] == (d[i].0, r.value);
    assert j == i;
  }

  /** `d[k] = v`: an existing key keeps its position, a new key is appended at
      the end; no other entry is touched. */
  function Put<T(==)>(d: Dict<T>, k: string, v: Tree<T>): (r: Dict<T>)
    ensures Keys(r) == if k in Keys(d) then Keys(d) else Keys(d) + [k]
    ensures forall i :: 0 <= i < |r| ==> r[i] == (k, v) || r[i] in d
    decreases |d|
  {
    if |d| == 0 then [(k, v)]
    else if d[0].0 == k then
      PutHere(d, k, v);
      [(k, v)] + d[1..]
    else
      var rest := Put(d[1..], k, v);
      PutThere(d, k, v, rest);
      [d[0]] + rest
  }

  lemma ConsKeys<T>(x: (string, Tree<T>), d: Dict<T>)
    ensures Keys([x] + d) == [x.0] + Keys(d)
  {
  }

  /** `d[k] = v` when the first key is `k`. */
  lemma PutHere<T>(d: Dict<T>, k: string, v: Tree<T>)
    requires |d| > 0 && d[0].0 == k
    ensures var r := [(k, v)] + d[1..];
      && k in Keys(d) && Keys(r) == Keys(d)
      && forall i :: 0 <= i < |r| ==> r[i] == (k, v) || r[i] in d
  {
    var r := [(k, v)] + d[1..];
    ConsKeys(d[0], d[1..]);
    ConsKeys((k, v), d[1..]);
    assert d == [d[0]] + d[1..];
    assert forall i :: 1 <= i < |r| ==> r[i] == d[i];
  }

  /** `d[k] = v` when the first key is not `k`, given the result `rest` for
      the other entries. */
  lemma PutThere<T>(d: Dict<T>, k: string, v: Tree<T>, rest: Dict<T>)
    requires |d| > 0 && d[0].0 != k
    requires Keys(rest) == if k in Keys(d[1..]) then Keys(d[1..]) else Keys(d[1..]) + [k]
    requires forall i :: 0 <= i < |rest| ==> rest[i] == (k, v) || rest[i] in d[1..]
    ensures var r := [d[0]] + rest;
      && Keys(r) == (if k in Keys(d) then Keys(d) else Keys(d) + [k])
      && forall i :: 0 <= i < |r| ==> r[i] == (k, v) || r[i] in d
  {
    var r := [d[0]] + rest;
    ConsKeys(d[0], d[1..]);
    ConsKeys(d[0], rest);
    assert d == [d[0]] + d[1..];
    assert forall i :: 1 <= i < |r| ==> r[i] == rest[i - 1];
  }

  /** After `d[k] = v`, `k` maps to `v` and every other key keeps its value. */
  lemma {:induction false} PutLookup<T>(d: Dict<T>, k: string, v: Tree<T>, k': string)
    ensures Lookup(Put(d, k, v), k') == if k' == k then Some(v) else Lookup(d, k')
    decreases |d|
  {
    if |d| > 0 && d[0].0 != k {
      PutLookup(d[1..], k, v, k');
      assert Put(d, k, v)[1..] == Put(d[1..], k, v);
    } else if |d| > 0 {
      assert Put(d, k, v)[1..] == d[1..];
    }
  }

  /** The node reached by following `p` from `t`: `t[p[0]][p[1]]...`, or `None`
      when a segment is missing or a leaf is in the way. */
  function Resolve<T(==)>(t: Tree<T>, p: seq<string>): Option<Tree<T>>
    decreases |p|
  {
    if |p| == 0 then Some(t)
    else
      match t
      case Leaf(_) => None
      case Group(d) =>
        match Lookup(d, p[0])
        case None => None
        case Some(c) => Resolve(c, p[1..])
  }

  predicate LeafAt<T(==)>(t: Tree<T>, p: seq<string>, x: T) {
    Resolve(t, p) == Some(Leaf(x))
  }

  predicate GroupAt<T(==)>(t: Tree<T>, p: seq<string>) {
    Resolve(t, p).Some? && Resolve(t, p).value.Group?
  }

  predicate IsPrefix(a: seq<string>, b: seq<string>) {
    |a| <= |b| && b[..|a|] == a
  }

  predicate IsProperPrefix(a: seq<string>, b: seq<string>) {
    |a| < |b| && b[..|a|] == a
  }

  /** Inserting at `p` must fail: some proper prefix of `p` holds a leaf (the
      walk cannot descend), or `p` itself is occupied. */
  predicate Blocked<T(==)>(t: Tree<T>, p: seq<string>) {
    || Resolve(t, p).Some?
    || exists k :: 0 < k < |p| && Resolve(t, p[..k]).Some? && Resolve(t, p[..k]).value.Leaf?
  }

  /** The body of the `for item in items` loop of `build_tree` (bowl.py:230-237)
      for one item whose path is `walked + rest`, at the dict `place` reached by
      `walked`: create missing intermediate dicts, refuse to descend through an
      item, refuse an occupied last segment. */
  function Place<T(==)>(place: Dict<T>, walked: seq<string>, rest: seq<string>, item: T): (r: Result<Dict<T>, BuildError>)
    requires |rest| > 0
    ensures r.Success? ==> Keys(r.value) == if rest[0] in Keys(place) then Keys(place) else Keys(place) + [rest[0]]
    ensures r.Success? && WellFormed(Group(place)) ==> WellFormed(Group(r.value))
    ensures r.Failure? ==> r.error.Collision?
    decreases |rest|
  {
    var step := rest[0];
    if |rest| == 1 then
      if step in Keys(place) then
        Failure(Collision(walked + rest))
      else
        var r := Put(place, step, Leaf(item));
        assert WellFormed(Group(place)) ==> WellFormed(Group(r)) by {
          if WellFormed(Group(place)) { PutWellFormed(place, step, Leaf(item)); }
        }
        Success(r)
    else
      var child := Lookup(place, step);
      if child.Some? && child.value.Leaf? then
        Failure(Collision(walked + [step]))
      else
        var sub := if child.Some? then child.value.children else [];
        assert WellFormed(Group(place)) ==> WellFormed(Group(sub)) by {
          if child.Some? && WellFormed(Group(place)) {
            var i :| 0 <= i < |place| && place[i] == (step, child.value);
            assert WellFormed(place[i].1);
          }
        }
        match Place(sub, walked + [step], rest[1..], item)
        case Failure(e) => Failure(e)
        case Success(sub') =>
          var r := Put(place, step, Group(sub'));
          assert WellFormed(Group(place)) ==> WellFormed(Group(r)) by {
            if WellFormed(Group(place)) { PutWellFormed(place, step, Group(sub')); }
          }
          Success(r)
  }

  lemma PutWellFormed<T>(d: Dict<T>, k: string, v: Tree<T>)
    requires WellFormed(Group(d)) && WellFormed(v)
    ensures WellFormed(Group(Put(d, k, v)))
  {
    var r := Put(d, k, v);
    forall i, j | 0 <= i < j < |r| ensures r[i].0 != r[j].0 {
      assert Keys(r)[i] == r[i].0 && Keys(r)[j] == r[j].0;
      if k in Keys(d) {
        assert Keys(d)[i] == d[i].0 && Keys(d)[j] == d[j].0;
      } else {
        assert j == |d| || Keys(d)[j] == d[j].0;
        assert Keys(d)[i] == d[i].0;
        assert k !in Keys(d);
      }
    }
    forall i | 0 <= i < |r| ensures WellFormed(r[i].1) {
      if r[i] != (k, v) {
        var j :| 0 <= j < |d| && d[j] == r[i];
      }
    }
  }

  /** One pass of the `for item in items` loop: a path with no last segment
      makes `path[-1]` raise before anything is placed. */
  function Insert<T(==)>(d: Dict<T>, path: seq<string>, item: T): (r: Result<Dict<T>, BuildError>)
    ensures |path| == 0 <==> r == Failure(EmptyPath)
  {
    if |path| == 0 then Failure(EmptyPath) else Place(d, [], path, item)
  }

  /** `build_tree(items, getpath)` (bowl.py:220-238): the items folded into a
      nested dictionary, left to right, stopping at the first exception. */
  function BuildTree<T(==)>(items: seq<T>, getpath: T -> seq<string>): (r: Result<Dict<T>, BuildError>)
    ensures r.Success? ==> WellFormed(Group(r.value))
    decreases |items|
  {
    if |items| == 0 then Success([])
    else
      var last := items[|items| - 1];
      var d :- BuildTree(items[..|items| - 1], getpath);
      Insert(d, getpath(last), last)
  }

  /** The default `getpath` of `build_tree` (bowl.py:222): `str(o).split()`,
      for items that are already strings. */
  function SplitOnWhitespace(s: string): seq<string> {
    Text.Words(s)
  }

  /** The path `build_arg_parser` gives a handler (bowl.py:194):
      `f.__name__.split("_")`. */
  function NamePath(name: string): seq<string> {
    Text.Split(name, '_')
  }

  /** The leaves below `t`, with their full paths, in the order the `add` walk
      of `build_arg_parser` (bowl.py:172-189) meets them: children in insertion
      order, depth first. */
  function WalkTree<T(==)>(t: Tree<T>, at: seq<string>): seq<(seq<string>, T)>
    decreases t, 1, 0
  {
    match t
    case Leaf(x) => [(at, x)]
    case Group(d) => WalkFrom(d, 0, at)
  }

  function WalkFrom<T(==)>(d: Dict<T>, i: nat, at: seq<string>): seq<(seq<string>, T)>
    requires i <= |d|
    decreases Group(d), 0, |d| - i
  {
    if i == |d| then []
    else WalkTree(d[i].1, at + [d[i].0]) + WalkFrom(d, i + 1, at)
  }
}
