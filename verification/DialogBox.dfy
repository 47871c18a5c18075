/**
 * The order of controlsets in a configuration box: ctrl_path_compare, ctrl_find_set, ctrl_find_path,
 * ctrl_settitle and ctrl_getset of DIALOG.C.
 *
 * The box is one flat array, but its users take the sets of one panel to be neighbours. The invariant `Grouped`
 * says that they are, for panels and for every group of panels, and it survives every insertion.
 */
module DialogBox {
  import opened Bytes

  const INT_MAX: nat := 0x7FFF_FFFF

  /** A C string, of a length that an int can count. */
  type Path = p: string | |p| + 1 < INT_MAX && '\0' !in p witness ""

  // -------------------------------------------------------------------------------------------
  // Paths and how much of them agrees
  // -------------------------------------------------------------------------------------------

  /** The path cut at its slashes. */
  function Elements(p: string): (e: seq<string>)
    ensures 1 <= |e| <= |p| + 1
  {
    if p == "" then [""]
    else if p[0] == '/' then [""] + Elements(p[1..])
    else
      var later := Elements(p[1..]);
      [[p[0]] + later[0]] + later[1..]
  }

  /** Length of the longest common prefix. */
  function Common(a: seq<string>, b: seq<string>): (n: nat)
    ensures n <= |a| && n <= |b|
  {
    if a == [] || b == [] || a[0] != b[0] then 0 else 1 + Common(a[1..], b[1..])
  }

  /** Leading elements that two paths share, or INT_MAX for a path and itself. */
  function Match(p: Path, q: Path): (n: nat)
    ensures n <= INT_MAX && (n == INT_MAX <==> p == q)
  {
    if p == q then INT_MAX else Common(Elements(p), Elements(q))
  }

  lemma {:induction false} CommonSymmetric(a: seq<string>, b: seq<string>)
    ensures Common(a, b) == Common(b, a)
  {
    if a != [] && b != [] {
      CommonSymmetric(a[1..], b[1..]);
    }
  }

  lemma {:induction false} CommonUltrametric(a: seq<string>, b: seq<string>, c: seq<string>)
    ensures Common(a, c) >= Min(Common(a, b), Common(b, c))
  {
    if a != [] && b != [] && c != [] && a[0] == b[0] == c[0] {
      CommonUltrametric(a[1..], b[1..], c[1..]);
    }
  }

  lemma {:induction false} CommonIsPrefix(e: seq<string>, a: seq<string>, b: seq<string>)
    requires e <= a
    ensures e <= b <==> Common(a, b) >= |e|
  {
    if e != [] {
      assert e[0] == a[0] && e[1..] <= a[1..];
      if b != [] && a[0] == b[0] {
        CommonIsPrefix(e[1..], a[1..], b[1..]);
        assert e <= b <==> e[1..] <= b[1..];
      }
    }
  }

  function Min(a: nat, b: nat): nat {
    if a <= b then a else b
  }

  lemma Symmetric(p: Path, q: Path)
    ensures Match(p, q) == Match(q, p)
  {
    CommonSymmetric(Elements(p), Elements(q));
  }

  /** Of the three likenesses between three paths, the smallest occurs twice. */
  lemma Ultrametric(p: Path, q: Path, r: Path)
    ensures Match(p, q) == Match(q, p) && Match(q, r) == Match(r, q) && Match(p, r) == Match(r, p)
    ensures Match(p, r) >= Min(Match(p, q), Match(q, r))
    ensures Match(p, q) >= Min(Match(p, r), Match(q, r))
    ensures Match(q, r) >= Min(Match(p, q), Match(p, r))
  {
    Symmetric(p, q);
    Symmetric(q, r);
    Symmetric(p, r);
    CommonUltrametric(Elements(p), Elements(q), Elements(r));
    CommonUltrametric(Elements(p), Elements(r), Elements(q));
    CommonUltrametric(Elements(q), Elements(p), Elements(r));
  }

  predicate Ends(p: string, k: nat)
    requires k <= |p|
  {
    k == |p| || p[k] == '/'
  }

  lemma FirstElement(p: string)
    ensures Elements(p)[0] == "" <==> Ends(p, 0)
    ensures !Ends(p, 0) ==> Elements(p)[0][0] == p[0]
  {
  }

  /** Character by character, an element is complete where both paths stand at a slash or at their end. */
  lemma {:induction false} CommonByCharacters(p: string, q: string)
    ensures Common(Elements(p), Elements(q)) ==
            (if Ends(p, 0) && Ends(q, 0) then 1 else 0) +
            (if p != "" && q != "" && p[0] == q[0] then Common(Elements(p[1..]), Elements(q[1..])) else 0)
  {
    if p != "" && q != "" && p[0] == q[0] {
      var e, f := Elements(p[1..]), Elements(q[1..]);
      if p[0] == '/' {
        assert ([""] + e)[1..] == e && ([""] + f)[1..] == f;
      } else {
        assert Elements(p)[1..] == e[1..] && Elements(q)[1..] == f[1..];
        assert ([p[0]] + e[0])[1..] == e[0] && ([q[0]] + f[0])[1..] == f[0];
      }
    } else if !(Ends(p, 0) && Ends(q, 0)) {
      assert Elements(p)[0] != Elements(q)[0] by {
        FirstElement(p);
        FirstElement(q);
      }
    }
  }

  /** ctrl_path_compare. */
  method PathCompare(p1: Path, p2: Path) returns (n: nat)
    ensures n == Match(p1, p2)
  {
    hide Elements, Common;
    n := 0;
    var k := 0;
    assert p1[0..] == p1 && p2[0..] == p2;
    while k < |p1| || k < |p2|
      invariant k <= |p1| && k <= |p2| && p1[..k] == p2[..k]
      invariant n + Common(Elements(p1[k..]), Elements(p2[k..])) == Common(Elements(p1), Elements(p2))
      decreases |p1| + |p2| - k
    {
      CommonByCharacters(p1[k..], p2[k..]);
      if Ends(p1, k) && Ends(p2, k) {
        n := n + 1;
      }
      if k == |p1| || k == |p2| || p1[k] != p2[k] {
        assert p1 != p2;
        return;
      }
      assert p1[k..][1..] == p1[k + 1..] && p2[k..][1..] == p2[k + 1..];
      k := k + 1;
    }
    assert p1[..k] == p1 && p2[..k] == p2;
    return INT_MAX;
  }

  // -------------------------------------------------------------------------------------------
  // Grouped sequences of paths
  // -------------------------------------------------------------------------------------------

  /** The path in the middle is at least as like either outer one as these are like each other. */
  predicate Between(p: Path, q: Path, r: Path) {
    Match(p, r) <= Match(p, q) && Match(p, r) <= Match(q, r)
  }

  /** Going away from a path in either direction, the likeness to it never rises again. */
  ghost predicate Grouped(s: seq<Path>) {
    forall i, j, k :: 0 <= i < j < k < |s| ==> Between(s[i], s[j], s[k])
  }

  /** The paths that begin with the elements `e` stand together. */
  predicate Neighbours(s: seq<Path>, e: seq<string>) {
    forall i, j, k :: 0 <= i < j < k < |s| && e <= Elements(s[i]) && e <= Elements(s[k]) ==> e <= Elements(s[j])
  }

  /** All panels under one prefix stand together. */
  lemma Contiguous(s: seq<Path>, e: seq<string>, i: nat, j: nat, k: nat)
    requires Grouped(s) && i < j < k < |s|
    requires e <= Elements(s[i]) && e <= Elements(s[k])
    ensures e <= Elements(s[j])
  {
    CommonIsPrefix(e, Elements(s[i]), Elements(s[k]));
    CommonIsPrefix(e, Elements(s[i]), Elements(s[j]));
    assert Between(s[i], s[j], s[k]);
  }

  /** So do the sets of one panel. */
  lemma SamePathContiguous(s: seq<Path>, i: nat, j: nat, k: nat)
    requires Grouped(s) && i < j < k < |s| && s[i] == s[k]
    ensures s[j] == s[i]
  {
    assert Between(s[i], s[j], s[k]);
  }

  /** Along the array, the likeness to any path whatever rises first and falls then. */
  lemma NoValley(s: seq<Path>, x: Path, i: nat, j: nat, k: nat)
    requires Grouped(s) && i < j < k < |s|
    ensures Match(x, s[j]) >= Min(Match(x, s[i]), Match(x, s[k]))
  {
    Ultrametric(s[i], x, s[k]);
    Ultrametric(x, s[i], s[j]);
    assert Between(s[i], s[j], s[k]);
  }

  /** Where the search for `x` stops at `t`. */
  predicate Stops(s: seq<Path>, x: Path, start: bool, t: nat)
    requires t < |s|
  {
    (start && s[t] == x) || Match(x, s[t]) < if t == 0 then 0 else Match(x, s[t - 1])
  }

  /** The index that the search returns: the first stop, or the end. */
  function Place(s: seq<Path>, x: Path, start: bool): (t: nat)
    ensures t <= |s| && forall i :: 0 <= i < t ==> !Stops(s, x, start, i)
    ensures t < |s| ==> Stops(s, x, start, t)
  {
    PlaceFrom(s, x, start, 0)
  }

  function PlaceFrom(s: seq<Path>, x: Path, start: bool, i: nat): (t: nat)
    requires i <= |s|
    ensures i <= t <= |s| && forall j :: i <= j < t ==> !Stops(s, x, start, j)
    ensures t < |s| ==> Stops(s, x, start, t)
    decreases |s| - i
  {
    if i == |s| || Stops(s, x, start, i) then i else PlaceFrom(s, x, start, i + 1)
  }

  function Inserted<T>(s: seq<T>, t: nat, x: T): (r: seq<T>)
    requires t <= |s|
    ensures |r| == |s| + 1 && r[t] == x
    ensures forall i :: 0 <= i < t ==> r[i] == s[i]
    ensures forall i :: t < i < |r| ==> r[i] == s[i - 1]
  {
    s[..t] + [x] + s[t..]
  }

  /** Up to the place the likeness does not fall. */
  lemma {:induction false} RisesBefore(s: seq<Path>, x: Path, i: nat, j: nat)
    requires i <= j < Place(s, x, true)
    ensures Match(x, s[i]) <= Match(x, s[j])
    decreases j
  {
    if i < j {
      RisesBefore(s, x, i, j - 1);
      assert !Stops(s, x, true, j);
    }
  }

  /** From the place on it does not rise. */
  lemma FallsAfter(s: seq<Path>, x: Path, j: nat, k: nat)
    requires Grouped(s) && Place(s, x, true) <= j < k < |s|
    ensures Match(x, s[k]) <= Match(x, s[j])
  {
    var t := Place(s, x, true);
    assert Stops(s, x, true, t);
    if s[t] == x {
      if t < j { NoValley(s, x, t, j, k); }
    } else {
      NoValley(s, x, t - 1, j, k);
      if t < j { NoValley(s, x, t - 1, t, j); }
    }
  }

  lemma StopsAtFirst(s: seq<Path>, x: Path, t: nat, i: nat)
    requires Grouped(s) && t <= i < |s| && s[i] == x && Stops(s, x, true, t)
    ensures s[t] == x
  {
    hide Match;
    if 0 < t < i {
      NoValley(s, x, t - 1, t, i);
    }
    assert Match(x, x) == INT_MAX;
  }

  /** The first set of a panel that exists is where the search ends. */
  lemma PlaceFindsFirst(s: seq<Path>, x: Path, i: nat)
    requires Grouped(s) && i < |s| && s[i] == x
    ensures Place(s, x, true) <= i && s[Place(s, x, true)] == x
    ensures forall j :: Place(s, x, true) <= j <= i ==> s[j] == x
  {
    var t := Place(s, x, true);
    assert Stops(s, x, true, i);
    StopsAtFirst(s, x, t, i);
    forall j | t <= j <= i ensures s[j] == x {
      if t < j < i { SamePathContiguous(s, t, j, i); }
    }
  }

  /** Nobody who belongs together is torn apart by a path put in its place. */
  lemma NewcomerBetween(s: seq<Path>, x: Path, i: nat, k: nat)
    requires Grouped(s) && i < Place(s, x, true) <= k < |s|
    ensures Between(s[i], x, s[k])
  {
    hide Match, PlaceFrom;
    var t := Place(s, x, true);
    assert Stops(s, x, true, t);
    Ultrametric(s[i], x, s[k]);
    if s[t] == x {
      if t < k { assert Between(s[i], s[t], s[k]); }
    } else {
      NewcomerAtFall(s, x, t, i, k);
    }
  }

  lemma NewcomerAtFall(s: seq<Path>, x: Path, t: nat, i: nat, k: nat)
    requires Grouped(s) && i < t <= k < |s| && t == Place(s, x, true)
    requires Match(x, s[t]) < Match(x, s[t - 1])
    ensures Between(s[i], x, s[k])
  {
    var a, l := Match(x, s[k]), Match(s[t - 1], s[k]);
    assert a < Match(x, s[t - 1]) by { if t < k { FallsAfter(s, x, t, k); } }
    assert l == a by { Ultrametric(x, s[k], s[t - 1]); }
    assert i < t - 1 ==> Between(s[i], s[t - 1], s[k]);
    Ultrametric(s[i], x, s[k]);
  }

  lemma InsertedBefore(s: seq<Path>, x: Path, t: nat, j: nat, k: nat)
    requires Grouped(s) && t == Place(s, x, true) <= j < k < |s|
    ensures Between(x, s[j], s[k])
  {
    FallsAfter(s, x, j, k);
    Ultrametric(s[j], x, s[k]);
  }

  lemma InsertedAfter(s: seq<Path>, x: Path, t: nat, i: nat, j: nat)
    requires Grouped(s) && i < j < t == Place(s, x, true)
    ensures Between(s[i], s[j], x)
  {
    RisesBefore(s, x, i, j);
    Ultrametric(s[i], x, s[j]);
  }

  /** Insertion keeps the array grouped. */
  lemma InsertionKeepsGrouped(s: seq<Path>, x: Path)
    requires Grouped(s)
    ensures Grouped(Inserted(s, Place(s, x, true), x))
  {
    hide Between, Place;
    var t := Place(s, x, true);
    var r := Inserted(s, t, x);
    forall i, j, k | 0 <= i < j < k < |r|
      ensures Between(r[i], r[j], r[k])
    {
      if k == t {
        InsertedAfter(s, x, t, i, j);
      } else if j == t {
        NewcomerBetween(s, x, i, k - 1);
      } else if i == t {
        InsertedBefore(s, x, t, j - 1, k - 1);
      } else {
        var a, b, c := if i < t then i else i - 1, if j < t then j else j - 1, if k < t then k else k - 1;
        assert r[i] == s[a] && r[j] == s[b] && r[k] == s[c];
      }
    }
  }

  // -------------------------------------------------------------------------------------------
  // Boxes as values
  // -------------------------------------------------------------------------------------------

  /** A controlset: a panel title has no name. */
  datatype Entry = Entry(path: Path, name: Option<string>, title: Option<string>)

  function Paths(b: seq<Entry>): (s: seq<Path>)
    ensures |s| == |b| && forall k :: 0 <= k < |b| ==> s[k] == b[k].path
  {
    seq(|b|, k requires 0 <= k < |b| => b[k].path)
  }

  predicate Named(e: Entry, path: Path, name: string) {
    e.path == path && e.name == Some(name)
  }

  /** No panel has two boxes of one name. */
  ghost predicate Unique(b: seq<Entry>) {
    forall i, j :: 0 <= i < j < |b| && b[i].name.Some? ==> !Named(b[j], b[i].path, b[i].name.value)
  }

  ghost predicate Sound(b: seq<Entry>) {
    Grouped(Paths(b)) && Unique(b)
  }

  function WithTitle(b: seq<Entry>, path: Path, title: string): seq<Entry> {
    Inserted(b, Place(Paths(b), path, true), Entry(path, None, Some(title)))
  }

  /** From `i` through the sets of the panel, to the one of that name or to the end of the panel. */
  function Scan(b: seq<Entry>, path: Path, name: string, i: nat): (j: nat)
    requires i <= |b|
    ensures i <= j <= |b|
    ensures forall k :: i <= k < j ==> b[k].path == path && !Named(b[k], path, name)
    ensures j < |b| ==> b[j].path != path || Named(b[j], path, name)
    decreases |b| - i
  {
    if i == |b| || b[i].path != path || Named(b[i], path, name) then i else Scan(b, path, name, i + 1)
  }

  function SetIndex(b: seq<Entry>, path: Path, name: string): (i: nat)
    ensures i <= |b|
  {
    Scan(b, path, name, Place(Paths(b), path, true))
  }

  predicate Present(b: seq<Entry>, path: Path, name: string) {
    var i := SetIndex(b, path, name);
    i < |b| && Named(b[i], path, name)
  }

  function WithSet(b: seq<Entry>, path: Path, name: string, title: Option<string>): seq<Entry> {
    if Present(b, path, name) then b
    else Inserted(b, SetIndex(b, path, name), Entry(path, Some(name), title))
  }

  /** A set is found if and only if the box has one of that path and name. */
  lemma FoundIfThere(b: seq<Entry>, path: Path, name: string)
    requires Grouped(Paths(b))
    ensures Present(b, path, name) <==> exists k :: 0 <= k < |b| && Named(b[k], path, name)
  {
    var i := SetIndex(b, path, name);
    if k :| 0 <= k < |b| && Named(b[k], path, name) && !Present(b, path, name) {
      PlaceFindsFirst(Paths(b), path, k);
    }
  }

  /** Behind its equals or before them, a path goes to the same place. */
  lemma BehindEquals(s: seq<Path>, x: Path, t: nat, i: nat)
    requires t <= i <= |s| && forall k :: t <= k < i ==> s[k] == x
    ensures Inserted(s, i, x) == Inserted(s, t, x)
  {
    var a, b := Inserted(s, i, x), Inserted(s, t, x);
    forall k | 0 <= k < |a| ensures a[k] == b[k] {
      if t < k <= i { assert a[k] == x == b[k]; }
    }
  }

  lemma PathsOfInserted(b: seq<Entry>, i: nat, e: Entry)
    requires i <= |b|
    ensures Paths(Inserted(b, i, e)) == Inserted(Paths(b), i, e.path)
  {
  }

  lemma WithTitleSound(b: seq<Entry>, path: Path, title: string)
    requires Sound(b)
    ensures Sound(WithTitle(b, path, title))
  {
    hide Between, Place;
    InsertionKeepsGrouped(Paths(b), path);
    PathsOfInserted(b, Place(Paths(b), path, true), Entry(path, None, Some(title)));
  }

  lemma WithSetSound(b: seq<Entry>, path: Path, name: string, title: Option<string>)
    requires Sound(b)
    ensures Sound(WithSet(b, path, name, title))
    ensures exists k :: 0 <= k < |WithSet(b, path, name, title)| && Named(WithSet(b, path, name, title)[k], path, name)
  {
    var i := SetIndex(b, path, name);
    hide Between, Place;
    FoundIfThere(b, path, name);
    if !Present(b, path, name) {
      var e := Entry(path, Some(name), title);
      InsertionKeepsGrouped(Paths(b), path);
      BehindEquals(Paths(b), path, Place(Paths(b), path, true), i);
      PathsOfInserted(b, i, e);
      assert Named(Inserted(b, i, e)[i], path, name);
      UniqueWithNew(b, i, e);
    }
  }

  lemma UniqueWithNew(b: seq<Entry>, i: nat, e: Entry)
    requires Unique(b) && i <= |b| && e.name.Some?
    requires forall k :: 0 <= k < |b| ==> !Named(b[k], e.path, e.name.value)
    ensures Unique(Inserted(b, i, e))
  {
    var r := Inserted(b, i, e);
    forall j, k | 0 <= j < k < |r| && r[j].name.Some? ensures !Named(r[k], r[j].path, r[j].name.value) {
      if j == i {
        assert r[k] == b[k - 1];
      } else if k == i {
        assert r[j] == b[j];
      } else {
        assert r[j] == b[if j < i then j else j - 1] && r[k] == b[if k < i then k else k - 1];
      }
    }
  }

  // -------------------------------------------------------------------------------------------
  // Walking through a panel
  // -------------------------------------------------------------------------------------------

  /** ctrl_find_path as a function. */
  function Next(s: seq<Path>, x: Path, index: int): (r: int)
    requires index < |s|
    ensures -1 <= r < |s| && (r >= 0 ==> s[r] == x && r > index)
  {
    var i := if index < 0 then Place(s, x, true) else index + 1;
    if i < |s| && s[i] == x then i else -1
  }

  /** All that the loop of the panel builder meets: start at -1, go on until there is no next. */
  function Walk(s: seq<Path>, x: Path, index: int): (v: seq<nat>)
    requires -1 <= index < |s|
    decreases |s| - index
  {
    var n := Next(s, x, index);
    if n < 0 then [] else [n as nat] + Walk(s, x, n)
  }

  lemma {:induction false} WalkOn(s: seq<Path>, x: Path, i: nat)
    requires i < |s| && s[i] == x && Grouped(s)
    ensures var v := Walk(s, x, i);
      && (forall k :: 0 <= k < |v| ==> v[k] == i + 1 + k && i + 1 + k < |s| && s[v[k]] == x)
      && (forall k :: i + |v| < k < |s| ==> s[k] != x)
    decreases |s| - i
  {
    hide Between;
    if i + 1 < |s| && s[i + 1] == x {
      WalkOn(s, x, i + 1);
      var w, v := Walk(s, x, i + 1), Walk(s, x, i);
      assert v == [i + 1] + w;
      forall k | 0 <= k < |v| ensures v[k] == i + 1 + k && i + 1 + k < |s| && s[v[k]] == x {
        if k > 0 { assert v[k] == w[k - 1]; }
      }
    } else {
      assert Walk(s, x, i) == [];
      forall k | i < k < |s| ensures s[k] != x {
        if s[k] == x && i + 1 < k { SamePathContiguous(s, i, i + 1, k); }
      }
    }
  }

  /** Exactly the sets of the panel, in order, none twice. */
  predicate MetOnce(s: seq<Path>, x: Path) {
    var v := Walk(s, x, -1);
    && (forall k :: 0 <= k < |s| ==> (s[k] == x <==> k in v))
    && (forall i, j :: 0 <= i < j < |v| ==> v[i] < v[j])
  }

  /** The walk meets every set of the panel once, in order, and nothing else. */
  lemma WalkMeetsAll(s: seq<Path>, x: Path)
    requires Grouped(s)
    ensures MetOnce(s, x)
  {
    hide Between;
    var v := Walk(s, x, -1);
    var t := Place(s, x, true);
    if t < |s| && s[t] == x {
      WalkOn(s, x, t);
      var w := Walk(s, x, t);
      assert v == [t] + w;
      forall k | 0 <= k < |s| ensures s[k] == x <==> k in v {
        if s[k] == x {
          PlaceFindsFirst(s, x, k);
          assert k == t || w[k - t - 1] == k;
        }
      }
    } else {
      forall k | 0 <= k < |s| ensures s[k] != x {
        if s[k] == x { PlaceFindsFirst(s, x, k); }
      }
    }
  }

  // -------------------------------------------------------------------------------------------
  // Histories
  // -------------------------------------------------------------------------------------------

  datatype Request = SetTitle(path: Path, text: string) | GetSet(path: Path, name: string, title: Option<string>)

  function Serve(b: seq<Entry>, r: Request): seq<Entry> {
    if r.SetTitle? then WithTitle(b, r.path, r.text) else WithSet(b, r.path, r.name, r.title)
  }

  function Build(requests: seq<Request>): seq<Entry> {
    if requests == [] then [] else Serve(Build(requests[..|requests| - 1]), requests[|requests| - 1])
  }

  lemma {:induction false} BuildSound(requests: seq<Request>)
    ensures Sound(Build(requests))
    decreases |requests|
  {
    if requests != [] {
      var n := |requests| - 1;
      BuildSound(requests[..n]);
      hide Sound;
      if requests[n].SetTitle? {
        WithTitleSound(Build(requests[..n]), requests[n].path, requests[n].text);
      } else {
        WithSetSound(Build(requests[..n]), requests[n].path, requests[n].name, requests[n].title);
      }
    }
  }

  predicate RisesThenFalls(s: seq<Path>, x: Path, i: nat, j: nat, k: nat) {
    i < j < k < |s| ==> Match(x, s[j]) >= Min(Match(x, s[i]), Match(x, s[k]))
  }

  /** After every history of requests: panels under any common prefix are neighbours, a walk through any panel
      meets each of its sets exactly once, likeness to any path rises and then falls along the array, and asking
      for an existing set never makes a second one. */
  lemma EveryHistory(requests: seq<Request>)
    ensures forall e :: Neighbours(Paths(Build(requests)), e)
    ensures forall x :: MetOnce(Paths(Build(requests)), x)
    ensures forall x, i, j, k :: RisesThenFalls(Paths(Build(requests)), x, i, j, k)
    ensures Unique(Build(requests))
  {
    BuildSound(requests);
    var s := Paths(Build(requests));
    hide Between, Walk, Elements, Match;
    forall e ensures Neighbours(s, e) {
      forall i, j, k | 0 <= i < j < k < |s| && e <= Elements(s[i]) && e <= Elements(s[k]) ensures e <= Elements(s[j]) {
        Contiguous(s, e, i, j, k);
      }
    }
    forall x ensures MetOnce(s, x) {
      WalkMeetsAll(s, x);
    }
    forall x, i: nat, j: nat, k: nat ensures RisesThenFalls(s, x, i, j, k) {
      if i < j < k < |s| {
        NoValley(s, x, i, j, k);
      }
    }
  }

  // -------------------------------------------------------------------------------------------
  // The box in memory
  // -------------------------------------------------------------------------------------------

  class ControlSet {
    const pathname: Path
    const boxname: Option<string>
    const boxtitle: Option<string>

    constructor (pathname: Path, boxname: Option<string>, boxtitle: Option<string>)
      ensures this.pathname == pathname && this.boxname == boxname && this.boxtitle == boxtitle
    {
      this.pathname, this.boxname, this.boxtitle := pathname, boxname, boxtitle;
    }

    function Value(): Entry {
      Entry(pathname, boxname, boxtitle)
    }
  }

  function Entries(sets: seq<ControlSet>): (b: seq<Entry>)
    ensures |b| == |sets| && forall k :: 0 <= k < |b| ==> b[k] == sets[k].Value()
  {
    seq(|sets|, k requires 0 <= k < |sets| => sets[k].Value())
  }

  lemma EntriesInserted(sets: seq<ControlSet>, index: nat, s: ControlSet)
    requires index <= |sets|
    ensures Entries(Inserted(sets, index, s)) == Inserted(Entries(sets), index, s.Value())
  {
  }

  class ControlBox {
    var ctrlsets: array<ControlSet?>
    var nctrlsets: nat
    var ctrlsetsize: nat

    ghost predicate Valid()
      reads this, ctrlsets
    {
      && nctrlsets <= ctrlsetsize == ctrlsets.Length
      && (forall k :: 0 <= k < nctrlsets ==> ctrlsets[k] != null)
      && Sound(Entries(ctrlsets[..nctrlsets]))
    }

    /** The sets themselves, in order. */
    ghost function Sets(): seq<ControlSet>
      requires Valid()
      reads this, ctrlsets
    {
      ctrlsets[..nctrlsets]
    }

    ghost function View(): seq<Entry>
      requires Valid()
      reads this, ctrlsets
    {
      Entries(Sets())
    }

    /** ctrl_new_box. */
    constructor ()
      ensures Valid() && Sets() == [] && fresh(ctrlsets)
    {
      ctrlsets := new ControlSet?[0];
      nctrlsets, ctrlsetsize := 0, 0;
    }

    /** ctrl_find_set. */
    method FindSet(path: Path, start: bool) returns (i: nat)
      requires Valid()
      ensures i == Place(Paths(View()), path, start)
    {
      hide Sound, Stops, Match;
      ghost var s := Paths(View());
      var last := 0;
      i := 0;
      while i < nctrlsets
        invariant i <= nctrlsets && Place(s, path, start) == PlaceFrom(s, path, start, i)
        invariant last == if i == 0 then 0 else Match(path, s[i - 1])
      {
        var thisone := PathCompare(path, ctrlsets[i].pathname);
        assert s[i] == ctrlsets[i].pathname;
        StopsIs(s, path, start, i);
        if (start && thisone == INT_MAX) || thisone < last {
          return;
        }
        last := thisone;
        i := i + 1;
      }
    }

    /** ctrl_find_path. */
    method FindPath(path: Path, index: int) returns (r: int)
      requires Valid() && index < nctrlsets
      ensures r == Next(Paths(View()), path, index)
    {
      hide Sound, Place;
      var i := index + 1;
      if index < 0 {
        i := FindSet(path, true);
      }
      if i < nctrlsets && path == ctrlsets[i].pathname {
        return i;
      }
      return -1;
    }

    /** Makes room for one more. */
    method Grow()
      requires Valid()
      modifies this`ctrlsets, this`ctrlsetsize
      ensures Valid() && Sets() == old(Sets()) && nctrlsets < ctrlsetsize
      ensures ctrlsets == old(ctrlsets) || fresh(ctrlsets)
    {
      hide Sound;
      if nctrlsets >= ctrlsetsize {
        ctrlsetsize := nctrlsets + 32;
        var larger := new ControlSet?[ctrlsetsize];
        forall k | 0 <= k < nctrlsets {
          larger[k] := ctrlsets[k];
        }
        ctrlsets := larger;
        assert ctrlsets[..nctrlsets] == old(ctrlsets[..nctrlsets]);
      }
    }

    /** Makes room and moves the later sets up by one, as the ends of both inserting functions do. */
    method InsertAt(index: nat, s: ControlSet)
      requires Valid() && index <= nctrlsets
      requires Sound(Inserted(View(), index, s.Value()))
      modifies this, ctrlsets
      ensures Valid() && Sets() == Inserted(old(Sets()), index, s)
      ensures ctrlsets == old(ctrlsets) || fresh(ctrlsets)
    {
      hide Sound;
      ghost var before := Sets();
      Grow();
      forall k | index <= k < nctrlsets {
        ctrlsets[k + 1] := ctrlsets[k];
      }
      ctrlsets[index] := s;
      nctrlsets := nctrlsets + 1;
      assert ctrlsets[..nctrlsets] == Inserted(before, index, s);
      EntriesInserted(before, index, s);
    }

    /** ctrl_settitle. */
    method SetTitle(path: Path, title: string) returns (s: ControlSet)
      requires Valid()
      modifies this, ctrlsets
      ensures Valid() && View() == WithTitle(old(View()), path, title)
      ensures fresh(s) && s.Value() == Entry(path, None, Some(title))
      ensures Sets() == Inserted(old(Sets()), Place(Paths(old(View())), path, true), s)
      ensures ctrlsets == old(ctrlsets) || fresh(ctrlsets)
    {
      hide Place;
      WithTitleSound(View(), path, title);
      hide Sound;
      s := new ControlSet(path, None, Some(title));
      var index := FindSet(path, true);
      InsertAt(index, s);
      assert View() == Inserted(old(View()), index, s.Value());
    }

    /** The loop of ctrl_getset: on through the panel, to the set of that name or to the panel's end. */
    method FindNamed(path: Path, name: string) returns (index: nat)
      requires Valid()
      ensures index == SetIndex(View(), path, name)
    {
      hide Sound, Place;
      ghost var b := View();
      index := FindSet(path, true);
      while index < nctrlsets && ctrlsets[index].pathname == path
        invariant index <= nctrlsets && SetIndex(b, path, name) == Scan(b, path, name, index)
      {
        assert b[index] == ctrlsets[index].Value();
        if ctrlsets[index].boxname == Some(name) {
          return;
        }
        index := index + 1;
      }
    }

    /** ctrl_getset. */
    method GetSet(path: Path, name: string, title: Option<string>) returns (s: ControlSet)
      requires Valid()
      modifies this, ctrlsets
      ensures Valid() && View() == WithSet(old(View()), path, name, title)
      ensures s.pathname == path && s.boxname == Some(name)
      ensures s in Sets() && if Present(old(View()), path, name) then Sets() == old(Sets()) else fresh(s)
      ensures ctrlsets == old(ctrlsets) || fresh(ctrlsets)
    {
      hide Place;
      WithSetSound(View(), path, name, title);
      hide Sound;
      ghost var b := View();
      var index := FindNamed(path, name);
      if index < nctrlsets && ctrlsets[index].pathname == path {
        assert Sets()[index] == ctrlsets[index];
        return ctrlsets[index];
      }
      hide SetIndex;
      s := new ControlSet(path, Some(name), title);
      InsertAt(index, s);
      assert Sets()[index] == s;
      assert View() == Inserted(old(View()), index, s.Value());
    }
  }

  lemma StopsIs(s: seq<Path>, x: Path, start: bool, t: nat)
    requires t < |s|
    ensures Stops(s, x, start, t) <==>
            (start && Match(x, s[t]) == INT_MAX) || Match(x, s[t]) < if t == 0 then 0 else Match(x, s[t - 1])
  {
  }
}
