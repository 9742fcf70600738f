/** The marking pass of common/los.cpp: from the block table to what one player cannot see. */
module SightMarking {
  import opened Common
  import opened LineOfSight

  /** A player's view, a mapx by mapy rectangle centred in the window, and the rows of the block
      table it is computed with. */
  datatype View = View(win: Window, mapx: nat, mapy: nat, rows: map<Cell, seq<Cell>>) {
    ghost predicate Valid() {
      && win.Odd() && mapx <= win.w && mapy <= win.h
      && (forall c :: win.Contains(c) ==> c in rows)
      && (forall c, e :: c in rows && e in rows[c] ==> win.Contains(e) && win.Range(c) < win.Range(e))
    }

    /** Window coordinates to view coordinates. */
    function Local(c: Cell): Cell
      requires Valid()
    {
      Cell(c.x - (win.w - mapx) / 2, c.y - (win.h - mapy) / 2)
    }

    predicate Shows(c: Cell)
      requires Valid()
    {
      var v := Local(c);
      0 <= v.x < mapx && 0 <= v.y < mapy
    }

    /** The spaces update_los looks at for walls: all but the border of the view. */
    predicate Inner(c: Cell)
      requires Valid()
    {
      && (win.w - mapx) / 2 + 1 <= c.x < (win.w + mapx) / 2 - 1
      && (win.h - mapy) / 2 + 1 <= c.y < (win.h + mapy) / 2 - 1
    }

    /** One step of hiding inside the view. */
    ghost predicate Step(c: Cell, e: Cell)
      requires Valid()
    {
      c in rows && e in rows[c] && Shows(e)
    }

    /** e is hidden by c, directly or through other spaces of the view. */
    ghost predicate HiddenBehind(c: Cell, e: Cell)
      requires Valid()
      decreases win.w + win.h - win.Range(c)
    {
      exists d :: Step(c, d) && (d == e || HiddenBehind(d, e))
    }

    /** Marking on behalf of c went from h0 to h1: everything new is hidden behind c, and
        whatever is hidden by a new space is marked too. */
    ghost predicate Progress(c: Cell, h0: iset<Cell>, h1: iset<Cell>)
      requires Valid()
    {
      var ok :=
        && h0 <= h1
        && (forall e :: e in h1 && e !in h0 ==> HiddenBehind(c, e))
        && (forall d, e :: d in h1 && d !in h0 && Step(d, e) ==> e in h1);
      ok
    }

    ghost predicate CoversSteps(c: Cell, h: iset<Cell>)
      requires Valid()
    {
      forall e :: Step(c, e) ==> e in h
    }

    lemma ProgressThrough(c: Cell, d: Cell, h0: iset<Cell>, h1: iset<Cell>, h2: iset<Cell>)
      requires Valid() && Progress(c, h0, h1)
      requires Step(c, d) && Progress(d, h1 + iset{d}, h2) && CoversSteps(d, h2)
      ensures Progress(c, h0, h2) && d in h2
    {
      forall e | e in h2 && e !in h0 ensures HiddenBehind(c, e) {
        if e !in h1 {
          assert e == d || HiddenBehind(d, e);
        }
      }
    }

    /** No space of s hides a space of the view outside s. */
    ghost predicate Closed(s: iset<Cell>)
      requires Valid()
    {
      forall c, e :: c in s && Step(c, e) ==> e in s
    }

    lemma {:induction false} ClosedContainsHidden(s: iset<Cell>, c: Cell, e: Cell)
      requires Valid() && Closed(s) && HiddenBehind(c, e)
      requires forall d :: Step(c, d) ==> d in s
      ensures e in s
      decreases win.w + win.h - win.Range(c)
    {
      var d :| Step(c, d) && (d == e || HiddenBehind(d, e));
      if d != e {
        ClosedContainsHidden(s, d, e);
      }
    }
  
    ghost predicate InShadow(walls: iset<Cell>, e: Cell)
      requires Valid()
    {
      exists w :: w in walls && HiddenBehind(w, e)
    }

    /** Everything hidden by some space of walls. */
    ghost function Shadow(walls: iset<Cell>): iset<Cell>
      requires Valid()
    {
      iset e: Cell | InShadow(walls, e)
    }

    lemma {:induction false} HiddenIsShown(c: Cell, e: Cell)
      requires Valid() && HiddenBehind(c, e)
      ensures Shows(e)
      decreases win.w + win.h - win.Range(c)
    {
      var d :| Step(c, d) && (d == e || HiddenBehind(d, e));
      if d != e {
        HiddenIsShown(d, e);
      }
    }

    lemma {:induction false} HiddenChains(c: Cell, d: Cell, e: Cell)
      requires Valid() && HiddenBehind(c, d) && Step(d, e)
      ensures HiddenBehind(c, e)
      decreases win.w + win.h - win.Range(c)
    {
      var b :| Step(c, b) && (b == d || HiddenBehind(b, d));
      if b == d {
        assert HiddenBehind(b, e);
      } else {
        HiddenChains(b, d, e);
      }
    }

    /** The shadow of a set of walls is the least set of shown spaces that holds the
        block-successors of every wall and is closed under the block relation. */
    lemma ShadowIsLeastClosed(walls: iset<Cell>, s: iset<Cell>)
      requires Valid()
      ensures Closed(Shadow(walls))
      ensures forall w, e :: w in walls && Step(w, e) ==> e in Shadow(walls)
      ensures Closed(s) && (forall w, e :: w in walls && Step(w, e) ==> e in s) ==> Shadow(walls) <= s
      ensures forall e :: e in Shadow(walls) ==> Shows(e)
    {
      forall d, e | d in Shadow(walls) && Step(d, e) ensures e in Shadow(walls) {
        var w :| w in walls && HiddenBehind(w, d);
        HiddenChains(w, d, e);
      }
      forall w, e | w in walls && Step(w, e) ensures e in Shadow(walls) {
        assert HiddenBehind(w, e);
      }
      forall e | e in Shadow(walls)
        ensures Shows(e)
        ensures Closed(s) && (forall w, d :: w in walls && Step(w, d) ==> d in s) ==> e in s
      {
        var w :| w in walls && HiddenBehind(w, e);
        HiddenIsShown(w, e);
        if Closed(s) && (forall w, d :: w in walls && Step(w, d) ==> d in s) {
          ClosedContainsHidden(s, w, e);
        }
      }
    }

    lemma ShadowOfOneMore(walls: iset<Cell>, c: Cell)
      requires Valid()
      ensures Shadow(walls + iset{c}) == Shadow(walls) + Shadow(iset{c})
    {
      forall e | e in Shadow(walls) + Shadow(iset{c}) ensures e in Shadow(walls + iset{c}) {
        var w :| (w in walls || w == c) && HiddenBehind(w, e);
        assert w in walls + iset{c};
      }
    }

    /** Whether or not the walk entered marked spaces, it ends with exactly the shadow added. */
    lemma ProgressAddsShadow(c: Cell, h0: iset<Cell>, h1: iset<Cell>)
      requires Valid() && Closed(h0) && Progress(c, h0, h1) && CoversSteps(c, h1)
      ensures h1 == h0 + Shadow(iset{c}) && Closed(h1)
    {
      forall e | e in Shadow(iset{c}) ensures e in h1 {
        ClosedContainsHidden(h1, c, e);
      }
      forall e | e in h1 && e !in h0 ensures e in Shadow(iset{c}) {
        assert c in iset{c} && HiddenBehind(c, e);
      }
    }

    /** The inner walls that the scan reaches before position (x, y). */
    ghost function Scanned(isWall: Cell -> bool, x: int, y: int): iset<Cell>
      requires Valid()
    {
      iset c: Cell | Inner(c) && isWall(c) && (c.x < x || (c.x == x && c.y < y))
    }

    lemma ScanStep(isWall: Cell -> bool, x: int, y: int)
      requires Valid() && Inner(Cell(x, y))
      ensures Shadow(Scanned(isWall, x, y + 1)) ==
        Shadow(Scanned(isWall, x, y)) + Shadow(if isWall(Cell(x, y)) then iset{Cell(x, y)} else iset{})
    {
      ShadowOfOneMore(Scanned(isWall, x, y), Cell(x, y));
      assert Scanned(isWall, x, y + 1) ==
        Scanned(isWall, x, y) + (if isWall(Cell(x, y)) then iset{Cell(x, y)} else iset{});
    }

    ghost function InnerWalls(isWall: Cell -> bool): iset<Cell>
      requires Valid()
    {
      iset c: Cell | Inner(c) && isWall(c)
    }
  }

  /** Inner spaces are all of the view but its border. */
  lemma InnerIff(view: View, c: Cell)
    requires view.Valid()
    ensures view.Inner(c) <==> 1 <= view.Local(c).x < view.mapx - 1 && 1 <= view.Local(c).y < view.mapy - 1
  {}

  /** The walls that count, in the coordinates of the view. */
  lemma InnerWallsIff(view: View, isWall: Cell -> bool, c: Cell)
    requires view.Valid()
    ensures c in view.InnerWalls(isWall) <==>
      isWall(c) && 1 <= view.Local(c).x < view.mapx - 1 && 1 <= view.Local(c).y < view.mapy - 1
  {
    InnerIff(view, c);
  }

  /** One step of hiding with the rows of such a table, in coordinates. */
  lemma StepIff(view: View, c: Cell, e: Cell)
    requires FromTable(view)
    ensures view.Step(c, e) <==>
      MayHide(view.win, c) && FurtherOut(view.win, c, e) && NearLine(view.win, c, e) && view.Shows(e)
  {
    BlocksIff(view.win, c, e);
  }

  /** The rows are those of a table filled by init_block. */
  ghost predicate FromTable(view: View) {
    && view.Valid()
    && forall c, e :: (c in view.rows && e in view.rows[c]) <==> Blocks(view.win, c, e)
  }

  /** What init_block leaves behind is what the marking pass expects. */
  lemma TableGivesView(table: BlockTable, mapx: nat, mapy: nat)
    requires table.Valid() && table.Complete()
    requires mapx <= table.win.w && mapy <= table.win.h
    ensures FromTable(View(table.win, mapx, mapy, table.Rows()))
  {
    var rows := table.Rows();
    forall c, e | c in rows && e in rows[c]
      ensures Blocks(table.win, c, e) && table.win.Contains(e) && table.win.Range(c) < table.win.Range(e)
    {
      BlocksMovesOutward(table.win, c, e);
    }
    forall c, e | Blocks(table.win, c, e) ensures c in rows && e in rows[c] {
      BlocksMovesOutward(table.win, c, e);
    }
  }

  /** Whatever the walls are, the scan never hides the viewer's own space or one of the eight
      around it. */
  lemma NeighboursStayVisible(view: View, walls: iset<Cell>, e: Cell)
    requires view.Valid()
    ensures FromTable(view) && e in view.Shadow(walls) ==>
              Abs(e.x - view.win.w / 2) >= 2 || Abs(e.y - view.win.h / 2) >= 2
  {
    if FromTable(view) && e in view.Shadow(walls) {
      var w :| w in walls && view.HiddenBehind(w, e);
      var b := LastStep(view, w, e);
      BlocksMovesOutward(view.win, b, e);
    }
  }

  lemma {:induction false} LastStep(view: View, c: Cell, e: Cell) returns (b: Cell)
    requires view.Valid() && view.HiddenBehind(c, e)
    ensures view.Step(b, e)
    decreases view.win.w + view.win.h - view.win.Range(c)
  {
    var d :| view.Step(c, d) && (d == e || view.HiddenBehind(d, e));
    if d == e {
      b := c;
    } else {
      b := LastStep(view, d, e);
    }
  }

  lemma MirrorShadow(view: View, gx: bool, gy: bool, walls: iset<Cell>, e: Cell)
    requires FromTable(view) && view.mapx % 2 == 1 && view.mapy % 2 == 1
    requires e in view.Shadow(walls)
    ensures view.win.Mirror(gx, gy, e) in view.Shadow(iset c | view.win.Mirror(gx, gy, c) in walls)
  {
    var w :| w in walls && view.HiddenBehind(w, e);
    HiddenBehindIsSymmetric(view, gx, gy, w, e);
    var w' := view.win.Mirror(gx, gy, w);
    assert view.win.Mirror(gx, gy, w') == w;
  }

  /** In an odd view, reflecting the walls reflects what is hidden. */
  lemma ShadowIsSymmetric(view: View, gx: bool, gy: bool, walls: iset<Cell>, e: Cell)
    requires view.Valid()
    ensures FromTable(view) && view.mapx % 2 == 1 && view.mapy % 2 == 1 ==>
              var walls' := iset c | view.win.Mirror(gx, gy, c) in walls;
              (view.win.Mirror(gx, gy, e) in view.Shadow(walls')) == (e in view.Shadow(walls))
  {
    if FromTable(view) && view.mapx % 2 == 1 && view.mapy % 2 == 1 {
      var walls' := iset c | view.win.Mirror(gx, gy, c) in walls;
      var e' := view.win.Mirror(gx, gy, e);
      if e in view.Shadow(walls) {
        MirrorShadow(view, gx, gy, walls, e);
      }
      if e' in view.Shadow(walls') {
        MirrorShadow(view, gx, gy, walls', e');
        MirrorTwice(view.win, gx, gy, e);
        forall c ensures view.win.Mirror(gx, gy, view.win.Mirror(gx, gy, c)) == c {
          MirrorTwice(view.win, gx, gy, c);
        }
        assert (iset c | view.win.Mirror(gx, gy, c) in walls') == walls;
      }
    }
  }

  lemma StepIsSymmetric(view: View, gx: bool, gy: bool, c: Cell, e: Cell)
    requires FromTable(view) && view.mapx % 2 == 1 && view.mapy % 2 == 1
    requires view.Step(c, e)
    ensures view.Step(view.win.Mirror(gx, gy, c), view.win.Mirror(gx, gy, e))
  {
    assert Blocks(view.win, c, e);
    BlocksIsSymmetric(view.win, gx, gy, c, e);
    var c', e' := view.win.Mirror(gx, gy, c), view.win.Mirror(gx, gy, e);
    assert Blocks(view.win, c', e');
    assert c' in view.rows && e' in view.rows[c'];
    MirrorShows(view, gx, gy, e);
  }

  lemma MirrorShows(view: View, gx: bool, gy: bool, e: Cell)
    requires view.Valid() && view.mapx % 2 == 1 && view.mapy % 2 == 1 && view.Shows(e)
    ensures view.Shows(view.win.Mirror(gx, gy, e))
  {}

  lemma {:induction false} HiddenBehindIsSymmetric(view: View, gx: bool, gy: bool, c: Cell, e: Cell)
    requires FromTable(view) && view.mapx % 2 == 1 && view.mapy % 2 == 1
    requires view.HiddenBehind(c, e)
    ensures view.HiddenBehind(view.win.Mirror(gx, gy, c), view.win.Mirror(gx, gy, e))
    decreases view.win.w + view.win.h - view.win.Range(c)
  {
    var d :| view.Step(c, d) && (d == e || view.HiddenBehind(d, e));
    StepIsSymmetric(view, gx, gy, c, d);
    if d != e {
      HiddenBehindIsSymmetric(view, gx, gy, d, e);
    }
  }

  /** One player's visibility matrix. */
  class Sight {
    const view: View
    const block: array2<seq<Cell>>
    const blockedLos: array2<int>

    /** Sight through the shared block table. */
    constructor (table: BlockTable, mapx: nat, mapy: nat)
      requires table.Valid() && table.Complete()
      requires mapx <= table.win.w && mapy <= table.win.h
      ensures Valid() && FromTable(view)
      ensures view.win == table.win && view.mapx == mapx && view.mapy == mapy
      ensures block == table.block && fresh(blockedLos)
    {
      TableGivesView(table, mapx, mapy);
      view := View(table.win, mapx, mapy, table.Rows());
      block := table.block;
      blockedLos := new int[table.win.w, table.win.h];
    }

    ghost predicate Valid()
      reads block
    {
      && view.Valid()
      && block.Length0 == blockedLos.Length0 == view.win.w && block.Length1 == blockedLos.Length1 == view.win.h
      && (forall c :: view.win.Contains(c) ==> block[c.x, c.y] == view.rows[c])
    }

    /** The spaces marked LOS_BLOCKED, in window coordinates. */
    ghost function Hidden(): iset<Cell>
      requires Valid()
      reads block, blockedLos
    {
      iset c: Cell | view.Shows(c) && blockedLos[view.Local(c).x, view.Local(c).y] == LOS_BLOCKED
    }

    /** set_wall: marks everything hidden behind c, not entering spaces that are marked already.
        Spaces marked by callers further up need not have had their own successors marked yet. */
    method SetWall(c: Cell)
      requires Valid() && view.win.Contains(c)
      modifies blockedLos
      ensures Valid()
      ensures view.Progress(c, old(Hidden()), Hidden())
      ensures view.CoversSteps(c, Hidden())
      decreases view.win.w + view.win.h - view.win.Range(c), 1
    {
      var at := block[c.x, c.y];
      for i := 0 to |at|
        invariant Valid() && view.Progress(c, old(Hidden()), Hidden())
        invariant forall j :: 0 <= j < i && view.Shows(at[j]) ==> at[j] in Hidden()
      {
        var d := at[i];
        var v := view.Local(d);
        if v.x < 0 || v.x >= view.mapx || v.y < 0 || v.y >= view.mapy || blockedLos[v.x, v.y] == LOS_BLOCKED {
          continue;
        }
        HideBehind(c, i, d, old(Hidden()));
      }
    }

    /** The i-th space behind c is marked, and all that it hides in turn. */
    method HideBehind(c: Cell, ghost i: nat, d: Cell, ghost h0: iset<Cell>)
      requires Valid() && view.win.Contains(c) && i < |block[c.x, c.y]| && d == block[c.x, c.y][i] && view.Shows(d)
      requires view.Progress(c, h0, Hidden())
      modifies blockedLos
      ensures Valid() && view.Progress(c, h0, Hidden()) && d in Hidden() && old(Hidden()) <= Hidden()
      decreases view.win.w + view.win.h - view.win.Range(c), 0
    {
      Mark(d);
      SetWall(d);
      view.ProgressThrough(c, d, h0, old(Hidden()), Hidden());
    }

    /** check_wall: an inner space that blocks the view, or lies outside the map, hides what is
        behind it. Spaces already marked are skipped, which loses nothing. */
    method CheckWall(isWall: Cell -> bool, c: Cell)
      requires Valid() && view.Inner(c) && view.Closed(Hidden())
      modifies blockedLos
      ensures Valid() && view.Closed(Hidden())
      ensures Hidden() == old(Hidden()) + view.Shadow(if isWall(c) then iset{c} else iset{})
    {
      if |block[c.x, c.y]| == 0 {
        NothingBehind(c);
        return;
      }
      var v := view.Local(c);
      if v.x < 0 || v.y < 0 || v.x >= view.mapx || v.y >= view.mapy {
        return;
      }
      if blockedLos[v.x, v.y] == LOS_BLOCKED {
        view.ProgressAddsShadow(c, Hidden(), Hidden());
        return;
      }
      if isWall(c) {
        SetWall(c);
        view.ProgressAddsShadow(c, old(Hidden()), Hidden());
      }
    }

    lemma NothingBehind(c: Cell)
      requires Valid() && view.Inner(c) && view.rows[c] == []
      ensures view.Shadow(iset{c}) == iset{}
    {}

    method ClearLos()
      requires Valid()
      modifies blockedLos
      ensures Valid() && Hidden() == iset{}
    {
      forall x, y | 0 <= x < view.win.w && 0 <= y < view.win.h {
        blockedLos[x, y] := LOS_NO_DARKNESS;
      }
    }

    /** update_los up to the end of the wall scan: what is marked is exactly the shadow of the
        inner walls. */
    method UpdateLos(isWall: Cell -> bool, removed: bool, wiz: bool)
      requires Valid()
      modifies blockedLos
      ensures Valid()
      ensures Hidden() == if removed then old(Hidden())
                          else if wiz then iset{}
                          else view.Shadow(view.InnerWalls(isWall))
    {
      if removed {
        return;
      }
      ClearLos();
      if wiz {
        return;
      }
      var x0, x1 := (view.win.w - view.mapx) / 2 + 1, (view.win.w + view.mapx) / 2 - 1;
      var y0 := (view.win.h - view.mapy) / 2 + 1;
      var x := x0;
      while x < x1
        invariant x0 <= x && (x <= x1 || x == x0)
        invariant Valid() && view.Closed(Hidden())
        invariant Hidden() == view.Shadow(view.Scanned(isWall, x, y0))
      {
        ScanColumn(isWall, x);
        x := x + 1;
      }
      assert view.InnerWalls(isWall) == view.Scanned(isWall, x, y0);
    }

    /** The inner loop of the scan. */
    method ScanColumn(isWall: Cell -> bool, x: int)
      requires Valid() && view.Closed(Hidden())
      requires (view.win.w - view.mapx) / 2 + 1 <= x < (view.win.w + view.mapx) / 2 - 1
      requires Hidden() == view.Shadow(view.Scanned(isWall, x, (view.win.h - view.mapy) / 2 + 1))
      modifies blockedLos
      ensures Valid() && view.Closed(Hidden())
      ensures Hidden() == view.Shadow(view.Scanned(isWall, x + 1, (view.win.h - view.mapy) / 2 + 1))
    {
      var y0, y1 := (view.win.h - view.mapy) / 2 + 1, (view.win.h + view.mapy) / 2 - 1;
      var y := y0;
      while y < y1
        invariant y0 <= y && (y <= y1 || y == y0)
        invariant Valid() && view.Closed(Hidden())
        invariant Hidden() == view.Shadow(view.Scanned(isWall, x, y))
      {
        CheckWall(isWall, Cell(x, y));
        view.ScanStep(isWall, x, y);
        y := y + 1;
      }
      assert view.Scanned(isWall, x + 1, y0) == view.Scanned(isWall, x, y);
    }

    /** The assignment that marks one space. */
    method Mark(d: Cell)
      requires Valid() && view.Shows(d)
      modifies blockedLos
      ensures Valid() && Hidden() == old(Hidden()) + iset{d}
    {
      var v := view.Local(d);
      blockedLos[v.x, v.y] := LOS_BLOCKED;
    }
  }
}
