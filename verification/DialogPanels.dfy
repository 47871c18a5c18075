/**
 * What a panel of a configuration box shows, and in which order (DIALOG.C:127-181): titles asked for later
 * stand in front, boxes asked for later behind, and asking again changes nothing. No position in the array
 * is mentioned.
 */
module DialogPanels {
  import opened Bytes
  import opened DialogBox

  /** The sets of one panel, in the order of the array. */
  function Panel(b: seq<Entry>, x: Path): seq<Entry> {
    if b == [] then [] else (if b[0].path == x then [b[0]] else []) + Panel(b[1..], x)
  }

  predicate Has(p: seq<Entry>, name: string) {
    exists e :: e in p && e.name == Some(name)
  }

  /** A panel as its own requests make it. */
  function Asked(requests: seq<Request>, x: Path): seq<Entry> {
    if requests == [] then []
    else
      var p := Asked(requests[..|requests| - 1], x);
      match requests[|requests| - 1]
      case SetTitle(path, text) => if path == x then [Entry(x, None, Some(text))] + p else p
      case GetSet(path, name, title) => if path == x && !Has(p, name) then p + [Entry(x, Some(name), title)] else p
  }

  lemma {:induction false} PanelJoin(a: seq<Entry>, b: seq<Entry>, x: Path)
    ensures Panel(a + b, x) == Panel(a, x) + Panel(b, x)
    decreases |a|
  {
    if a == [] {
      assert a + b == b;
    } else {
      TailOfJoin(a, b);
      PanelJoin(a[1..], b, x);
      PanelCons(a, x);
      PanelCons(a + b, x);
      hide Panel;
      Associative(if a[0].path == x then [a[0]] else [], Panel(a[1..], x), Panel(b, x));
    }
  }

  lemma TailOfJoin(a: seq<Entry>, b: seq<Entry>)
    requires a != []
    ensures (a + b)[1..] == a[1..] + b && (a + b)[0] == a[0]
  {
  }

  lemma PanelCons(b: seq<Entry>, x: Path)
    requires b != []
    ensures Panel(b, x) == (if b[0].path == x then [b[0]] else []) + Panel(b[1..], x)
  {
  }

  lemma Associative(a: seq<Entry>, b: seq<Entry>, c: seq<Entry>)
    ensures a + b + c == a + (b + c)
  {
  }

  lemma {:induction false} PanelNone(b: seq<Entry>, x: Path)
    requires forall k :: 0 <= k < |b| ==> b[k].path != x
    ensures Panel(b, x) == []
    decreases |b|
  {
    if b != [] {
      PanelNone(b[1..], x);
    }
  }

  lemma {:induction false} PanelHas(b: seq<Entry>, x: Path, e: Entry)
    ensures e in Panel(b, x) <==> e in b && e.path == x
    decreases |b|
  {
    if b != [] {
      PanelHas(b[1..], x, e);
      assert b == [b[0]] + b[1..];
    }
  }

  lemma PanelInserted(b: seq<Entry>, i: nat, e: Entry, x: Path)
    requires i <= |b|
    ensures Panel(Inserted(b, i, e), x) == Panel(b[..i], x) + (if e.path == x then [e] else []) + Panel(b[i..], x)
    ensures Panel(b, x) == Panel(b[..i], x) + Panel(b[i..], x)
  {
    var one := if e.path == x then [e] else [];
    assert Inserted(b, i, e) == b[..i] + ([e] + b[i..]);
    PanelJoin(b[..i], [e] + b[i..], x);
    PanelJoin([e], b[i..], x);
    assert Panel([e], x) == one + Panel([e][1..], x) && Panel([e][1..], x) == [];
    assert b == b[..i] + b[i..];
    PanelJoin(b[..i], b[i..], x);
  }

  /** A title goes in front of its panel. */
  lemma TitleInFront(b: seq<Entry>, path: Path, title: string, x: Path)
    requires Grouped(Paths(b))
    ensures Panel(WithTitle(b, path, title), x)
            == (if x == path then [Entry(path, None, Some(title))] else []) + Panel(b, x)
  {
    hide Panel;
    var t := Place(Paths(b), path, true);
    PanelInserted(b, t, Entry(path, None, Some(title)), x);
    if x == path {
      forall k | 0 <= k < t ensures b[k].path != path {
        if b[k].path == path {
          PlaceFindsFirst(Paths(b), path, k);
        }
      }
      PanelNone(b[..t], path);
    }
  }

  lemma NothingBehind(b: seq<Entry>, path: Path, name: string)
    requires Grouped(Paths(b)) && !Present(b, path, name)
    ensures Panel(b[SetIndex(b, path, name)..], path) == []
  {
    var s, i := Paths(b), SetIndex(b, path, name);
    forall k | i <= k < |b| ensures b[k].path != path {
      if b[k].path == path {
        PlaceFindsFirst(s, path, k);
      }
    }
    PanelNone(b[i..], path);
  }

  /** A new box goes behind the others of its panel. */
  lemma BoxBehind(b: seq<Entry>, path: Path, name: string, title: Option<string>, x: Path)
    requires Grouped(Paths(b))
    ensures Panel(WithSet(b, path, name, title), x)
            == Panel(b, x) + if x == path && !Present(b, path, name) then [Entry(path, Some(name), title)] else []
  {
    if !Present(b, path, name) {
      PanelInserted(b, SetIndex(b, path, name), Entry(path, Some(name), title), x);
      if x == path {
        NothingBehind(b, path, name);
      }
    }
    hide Panel, SetIndex;
  }

  lemma PresentIs(b: seq<Entry>, path: Path, name: string)
    requires Grouped(Paths(b))
    ensures Present(b, path, name) <==> Has(Panel(b, path), name)
  {
    FoundIfThere(b, path, name);
    hide Present, Panel;
    if k :| 0 <= k < |b| && Named(b[k], path, name) {
      PanelHas(b, path, b[k]);
      assert b[k] in b;
    }
    if e :| e in Panel(b, path) && e.name == Some(name) {
      PanelHas(b, path, e);
      var k :| 0 <= k < |b| && b[k] == e;
      assert Named(b[k], path, name);
    }
  }

  /** After every history of requests, every panel is what its own requests make of it. */
  lemma {:induction false} EveryPanel(requests: seq<Request>, x: Path)
    ensures Panel(Build(requests), x) == Asked(requests, x)
    decreases |requests|
  {
    if requests != [] {
      var n := |requests| - 1;
      var b, r := Build(requests[..n]), requests[n];
      EveryPanel(requests[..n], x);
      BuildSound(requests[..n]);
      hide Panel, WithTitle, WithSet, Present, Has;
      if r.SetTitle? {
        TitleInFront(b, r.path, r.text, x);
      } else {
        BoxBehind(b, r.path, r.name, r.title, x);
        PresentIs(b, r.path, r.name);
      }
      assert [] + Panel(b, x) == Panel(b, x) == Panel(b, x) + [];
    }
  }
}
