/** The tiled matrix product kernel and the sampled checker that rides on it
    (cli-stressor-opencl/test.py, cli-stressor-opencl/verify_opencl.py), over integers.
    Work-items take single steps in any order; a barrier lets an item through once its
    whole work-group has arrived. */
module Gemm {
  import opened Arithmetic
  import opened Options

  /** One launch: matrix size, tile size, transpose flags and the two operands. */
  datatype Job = Job(n: nat, tile: nat, ta: bool, tb: bool, a: seq<int>, b: seq<int>)

  /** `i` times `n`, as a recursion: index arithmetic below stays linear. */
  function Times(n: nat, i: nat): nat {
    if i == 0 then 0 else Times(n, i - 1) + n
  }

  lemma {:induction false} TimesIsProduct(n: nat, i: nat)
    ensures Times(n, i) == i * n
  {
    if i > 0 {
      TimesIsProduct(n, i - 1);
      assert i * n == (i - 1) * n + n;
    }
  }

  lemma {:induction false} TimesGrows(n: nat, i: nat, k: nat)
    requires i < k
    ensures Times(n, i) + n <= Times(n, k)
  {
    if i < k - 1 { TimesGrows(n, i, k - 1); }
  }

  lemma SplitUnique(a: nat, b: nat, c: nat, d: nat, n: nat)
    requires b < n && d < n && Times(n, a) + b == Times(n, c) + d
    ensures a == c && b == d
  {
    if a < c { TimesGrows(n, a, c); }
    if c < a { TimesGrows(n, c, a); }
  }

  predicate Launchable(j: Job) {
    j.tile > 0 && |j.a| == Times(j.n, j.n) && |j.b| == Times(j.n, j.n)
  }

  /** The row-major index of a cell. */
  function Cell(n: nat, row: nat, col: nat): (i: nat)
    requires row < n && col < n
    ensures i < Times(n, n)
  {
    TimesGrows(n, row, n);
    Times(n, row) + col
  }

  function RoundUp(value: nat, multiple: nat): nat
    requires multiple > 0
  {
    ((value + multiple - 1) / multiple) * multiple
  }

  /** Work-groups along one side of the launch. */
  function Groups(j: Job): nat
    requires j.tile > 0
  {
    RoundUp(j.n, j.tile) / j.tile
  }

  lemma GridCovers(j: Job)
    requires j.tile > 0
    ensures RoundUp(j.n, j.tile) == Times(j.tile, Groups(j))
    ensures j.n <= Times(j.tile, Groups(j)) < j.n + j.tile
  {
    var q := (j.n + j.tile - 1) / j.tile;
    MultipleMod(q, j.tile);
    TimesIsProduct(j.tile, q);
    assert j.n + j.tile - 1 == j.tile * q + (j.n + j.tile - 1) % j.tile;
  }

  // ------------------------------------------------------------- what is computed

  /** The zero-padded operands, at the kernel's own index. */
  function AElem(j: Job, row: nat, k: nat): int
    requires Launchable(j)
  {
    if row < j.n && k < j.n then j.a[if j.ta then Cell(j.n, k, row) else Cell(j.n, row, k)] else 0
  }

  function BElem(j: Job, k: nat, col: nat): int
    requires Launchable(j)
  {
    if k < j.n && col < j.n then j.b[if j.tb then Cell(j.n, col, k) else Cell(j.n, k, col)] else 0
  }

  /** The first `m` terms of the dot product of a row and a column. */
  function Dot(j: Job, row: nat, col: nat, m: nat): int
    requires Launchable(j)
  {
    if m == 0 then 0 else Dot(j, row, col, m - 1) + AElem(j, row, m - 1) * BElem(j, m - 1, col)
  }

  lemma {:induction false} PaddingAddsNothing(j: Job, row: nat, col: nat, m: nat)
    requires Launchable(j) && m >= j.n
    ensures Dot(j, row, col, m) == Dot(j, row, col, j.n)
  {
    if m > j.n { PaddingAddsNothing(j, row, col, m - 1); }
  }

  /** The sum of the first `m` products of two rows of numbers. */
  function SumOfProducts(m: nat, x: nat -> int, y: nat -> int): int {
    if m == 0 then 0 else SumOfProducts(m - 1, x, y) + x(m - 1) * y(m - 1)
  }

  /** The entry of a stored operand at a plain index. */
  function At(s: seq<int>, i: nat): int { if i < |s| then s[i] else 0 }

  /** A stored row, and a stored column. */
  function Along(s: seq<int>, n: nat, row: nat): nat -> int { (k: nat) => At(s, row * n + k) }
  function Down(s: seq<int>, n: nat, col: nat): nat -> int { (k: nat) => At(s, k * n + col) }

  lemma CellIsProduct(n: nat, row: nat, col: nat)
    requires row < n && col < n
    ensures Cell(n, row, col) == row * n + col
  {
    TimesIsProduct(n, row);
  }

  /** A cell lies on its row and in its column. */
  lemma CellLies(s: seq<int>, n: nat, row: nat, col: nat)
    requires row < n && col < n && |s| == Times(n, n)
    ensures s[Cell(n, row, col)] == Along(s, n, row)(col)
    ensures s[Cell(n, row, col)] == Down(s, n, col)(row)
  {
    CellIsProduct(n, row, col);
    var i: nat := Cell(n, row, col);
    assert At(s, i) == s[i];
    assert Along(s, n, row)(col) == At(s, i);
    assert Down(s, n, col)(row) == At(s, i);
  }

  lemma ElementsAreRaw(j: Job, row: nat, col: nat, k: nat)
    requires Launchable(j) && row < j.n && col < j.n && k < j.n
    ensures AElem(j, row, k) == if j.ta then Down(j.a, j.n, row)(k) else Along(j.a, j.n, row)(k)
    ensures BElem(j, k, col) == if j.tb then Along(j.b, j.n, col)(k) else Down(j.b, j.n, col)(k)
  {
    if j.ta { CellLies(j.a, j.n, k, row); } else { CellLies(j.a, j.n, row, k); }
    if j.tb { CellLies(j.b, j.n, col, k); } else { CellLies(j.b, j.n, k, col); }
  }

  lemma {:induction false} DotIsSum(j: Job, row: nat, col: nat, m: nat, x: nat -> int, y: nat -> int)
    requires Launchable(j) && m <= j.n
    requires forall k: nat :: k < j.n ==> x(k) == AElem(j, row, k) && y(k) == BElem(j, k, col)
    ensures Dot(j, row, col, m) == SumOfProducts(m, x, y)
  {
    if m > 0 { DotIsSum(j, row, col, m - 1, x, y); }
  }

  /** The dot product in terms of the stored operands, a row of the first and a column of the
      second, or the other way round where a flag asks for the transpose, for every pair of transpose flags. */
  lemma DotIsRaw(j: Job, row: nat, col: nat)
    requires Launchable(j) && row < j.n && col < j.n
    ensures !j.ta && !j.tb ==>
      Dot(j, row, col, j.n) == SumOfProducts(j.n, Along(j.a, j.n, row), Down(j.b, j.n, col))
    ensures !j.ta && j.tb ==>
      Dot(j, row, col, j.n) == SumOfProducts(j.n, Along(j.a, j.n, row), Along(j.b, j.n, col))
    ensures j.ta && !j.tb ==>
      Dot(j, row, col, j.n) == SumOfProducts(j.n, Down(j.a, j.n, row), Down(j.b, j.n, col))
    ensures j.ta && j.tb ==>
      Dot(j, row, col, j.n) == SumOfProducts(j.n, Down(j.a, j.n, row), Along(j.b, j.n, col))
  {
    var x := if j.ta then Down(j.a, j.n, row) else Along(j.a, j.n, row);
    var y := if j.tb then Along(j.b, j.n, col) else Down(j.b, j.n, col);
    forall k: nat | k < j.n ensures x(k) == AElem(j, row, k) && y(k) == BElem(j, k, col) {
      ElementsAreRaw(j, row, col, k);
    }
    DotIsSum(j, row, col, j.n, x, y);
  }

  /** The stored operand is the unit matrix. */
  ghost predicate IsUnit(s: seq<int>, n: nat) {
    forall row: nat, col: nat :: row < n && col < n ==> UnitAt(s, n, row, col)
  }

  ghost predicate UnitAt(s: seq<int>, n: nat, row: nat, col: nat) {
    At(s, row * n + col) == if row == col then 1 else 0
  }

  lemma {:induction false} UnitSum(m: nat, x: nat -> int, y: nat -> int, at: nat)
    requires forall k: nat :: k < m ==> y(k) == if k == at then 1 else 0
    ensures SumOfProducts(m, x, y) == if at < m then x(at) else 0
    ensures SumOfProducts(m, y, x) == if at < m then x(at) else 0
  {
    if m > 0 { UnitSum(m - 1, x, y, at); }
  }

  lemma UnitLines(s: seq<int>, n: nat, at: nat)
    requires IsUnit(s, n) && at < n
    ensures forall k: nat :: k < n ==> Along(s, n, at)(k) == if k == at then 1 else 0
    ensures forall k: nat :: k < n ==> Down(s, n, at)(k) == if k == at then 1 else 0
  {
    forall k: nat | k < n
      ensures Along(s, n, at)(k) == if k == at then 1 else 0
      ensures Down(s, n, at)(k) == if k == at then 1 else 0
    {
      assert UnitAt(s, n, at, k) && UnitAt(s, n, k, at);
    }
  }

  /** A unit second operand lets the first one through: as it is stored, or transposed where
      its flag says so. */
  lemma UnitLetsFirstThrough(j: Job, row: nat, col: nat)
    requires Launchable(j) && row < j.n && col < j.n && IsUnit(j.b, j.n)
    ensures Dot(j, row, col, j.n) == At(j.a, if j.ta then col * j.n + row else row * j.n + col)
  {
    DotIsRaw(j, row, col);
    UnitLines(j.b, j.n, col);
    var x := if j.ta then Down(j.a, j.n, row) else Along(j.a, j.n, row);
    UnitSum(j.n, x, if j.tb then Along(j.b, j.n, col) else Down(j.b, j.n, col), col);
  }

  lemma UnitLetsSecondThrough(j: Job, row: nat, col: nat)
    requires Launchable(j) && row < j.n && col < j.n && IsUnit(j.a, j.n)
    ensures Dot(j, row, col, j.n) == At(j.b, if j.tb then col * j.n + row else row * j.n + col)
  {
    DotIsRaw(j, row, col);
    UnitLines(j.a, j.n, row);
    var y := if j.tb then Along(j.b, j.n, col) else Down(j.b, j.n, col);
    UnitSum(j.n, y, if j.ta then Down(j.a, j.n, row) else Along(j.a, j.n, row), row);
  }

  // ------------------------------------------------------------------ the kernel

  /** A work-item, or the local-memory cell it owns: group and position in the group. */
  datatype Place = Place(groupRow: nat, groupCol: nat, row: nat, col: nat)

  datatype Pc = LoadA | LoadB | Barrier1 | Multiply | Barrier2 | Done

  /** An item: where it is, how many tiles it has finished (the loop variable `tile` is
      `t * TILE_SIZE`), the inner loop variable, and its accumulator. */
  datatype Item = Item(pc: Pc, t: nat, k: nat, sum: int)

  datatype State = State(items: map<Place, Item>, aTile: map<Place, int>, bTile: map<Place, int>, c: seq<int>)

  predicate InGrid(j: Job, w: Place)
    requires j.tile > 0
  {
    w.groupRow < Groups(j) && w.groupCol < Groups(j) && w.row < j.tile && w.col < j.tile
  }

  function GlobalRow(j: Job, w: Place): nat { Times(j.tile, w.groupRow) + w.row }
  function GlobalCol(j: Job, w: Place): nat { Times(j.tile, w.groupCol) + w.col }

  predicate SameGroup(w: Place, v: Place) {
    w.groupRow == v.groupRow && w.groupCol == v.groupCol
  }

  /** Barriers an item has passed, and barriers it has reached. */
  function BarriersPassed(i: Item): nat {
    2 * i.t + (if i.pc == Multiply || i.pc == Barrier2 then 1 else 0)
  }

  function BarriersReached(i: Item): nat {
    BarriersPassed(i) + (if i.pc == Barrier1 || i.pc == Barrier2 then 1 else 0)
  }

  predicate GroupArrived(s: State, w: Place)
    requires w in s.items
  {
    forall v :: v in s.items && SameGroup(v, w) ==> BarriersReached(s.items[v]) > BarriersPassed(s.items[w])
  }

  /** The cells an item multiplies next. */
  function ACell(w: Place, k: nat): Place { w.(col := k) }
  function BCell(w: Place, k: nat): Place { w.(row := k) }

  /** One step of work-item `w`; `None` while a barrier holds it, when it is done, or if
      it would read a local cell nobody has written. */
  function Next(j: Job, s: State, w: Place): Option<State>
    requires Launchable(j) && w in s.items && |s.c| == Times(j.n, j.n)
  {
    var i := s.items[w];
    var row, col := GlobalRow(j, w), GlobalCol(j, w);
    match i.pc
    case LoadA =>
      if Times(j.tile, i.t) < j.n then
        Some(s.(aTile := s.aTile[w := AElem(j, row, Times(j.tile, i.t) + w.col)],
                items := s.items[w := i.(pc := LoadB)]))
      else
        var c := if row < j.n && col < j.n then s.c[Cell(j.n, row, col) := i.sum] else s.c;
        Some(s.(c := c, items := s.items[w := i.(pc := Done)]))
    case LoadB =>
      Some(s.(bTile := s.bTile[w := BElem(j, Times(j.tile, i.t) + w.row, col)],
              items := s.items[w := i.(pc := Barrier1)]))
    case Barrier1 =>
      if GroupArrived(s, w) then Some(s.(items := s.items[w := i.(pc := Multiply, k := 0)])) else None
    case Multiply =>
      if i.k >= j.tile then Some(s.(items := s.items[w := i.(pc := Barrier2)]))
      else if ACell(w, i.k) !in s.aTile || BCell(w, i.k) !in s.bTile then None
      else
        var product := s.aTile[ACell(w, i.k)] * s.bTile[BCell(w, i.k)];
        Some(s.(items := s.items[w := i.(k := i.k + 1, sum := i.sum + product)]))
    case Barrier2 =>
      if GroupArrived(s, w) then Some(s.(items := s.items[w := i.(pc := LoadA, t := i.t + 1)])) else None
    case Done => None
  }

  /** At launch: every item of the grid at the top, local memory unwritten. */
  ghost predicate Init(j: Job, s: State)
    requires Launchable(j)
  {
    && (forall w :: w in s.items <==> InGrid(j, w))
    && (forall w :: w in s.items ==> s.items[w] == Item(LoadA, 0, 0, 0))
    && s.aTile == map[] && s.bTile == map[] && |s.c| == Times(j.n, j.n)
  }

  ghost predicate IsRun(j: Job, states: seq<State>)
    requires Launchable(j)
  {
    && states != [] && Init(j, states[0])
    && forall n :: 0 <= n < |states| - 1 ==> Moves(j, states[n], states[n + 1])
  }

  ghost predicate Moves(j: Job, s: State, s': State)
    requires Launchable(j)
  {
    |s.c| == Times(j.n, j.n) && exists w :: w in s.items && Next(j, s, w) == Some(s')
  }

  // ----------------------------------------------------------------- the invariant

  /** How many terms an item's accumulator holds. */
  function Terms(j: Job, i: Item): nat {
    Times(j.tile, i.t) + (if i.pc == Multiply || i.pc == Barrier2 then i.k else 0)
  }

  /** An item's own bookkeeping. */
  ghost predicate BooksOk(j: Job, w: Place, i: Item)
    requires Launchable(j)
  {
    && i.k <= j.tile && (i.pc == Barrier2 ==> i.k == j.tile)
    && (i.pc == Done ==> Times(j.tile, i.t) >= j.n)
    && (i.pc != LoadA && i.pc != Done ==> Times(j.tile, i.t) < j.n)
    && i.sum == Dot(j, GlobalRow(j, w), GlobalCol(j, w), Terms(j, i))
  }

  /** The cells the item owns hold its share of the tile it is working on. */
  ghost predicate CellsOk(j: Job, s: State, w: Place)
    requires Launchable(j) && w in s.items
  {
    var i := s.items[w];
    && (i.pc != LoadA && i.pc != Done ==>
          w in s.aTile && s.aTile[w] == AElem(j, GlobalRow(j, w), Times(j.tile, i.t) + w.col))
    && (i.pc != LoadA && i.pc != LoadB && i.pc != Done ==>
          w in s.bTile && s.bTile[w] == BElem(j, Times(j.tile, i.t) + w.row, GlobalCol(j, w)))
  }

  /** A finished item has stored its result. */
  ghost predicate OutputOk(j: Job, s: State, w: Place)
    requires Launchable(j) && w in s.items && |s.c| == Times(j.n, j.n)
  {
    s.items[w].pc == Done && GlobalRow(j, w) < j.n && GlobalCol(j, w) < j.n ==> Stored(j, s.c, w)
  }

  ghost predicate ItemOk(j: Job, s: State, w: Place)
    requires Launchable(j) && w in s.items && |s.c| == Times(j.n, j.n)
  {
    BooksOk(j, w, s.items[w]) && CellsOk(j, s, w) && OutputOk(j, s, w)
  }

  /** The item's output cell holds its dot product. */
  ghost predicate Stored(j: Job, c: seq<int>, w: Place)
    requires Launchable(j) && |c| == Times(j.n, j.n)
    requires GlobalRow(j, w) < j.n && GlobalCol(j, w) < j.n
  {
    c[Cell(j.n, GlobalRow(j, w), GlobalCol(j, w))] == Dot(j, GlobalRow(j, w), GlobalCol(j, w), j.n)
  }

  /** No item has passed a barrier that a fellow has not reached. */
  ghost predicate InStep(s: State, w: Place, v: Place)
    requires w in s.items && v in s.items
  {
    SameGroup(w, v) ==> BarriersPassed(s.items[w]) <= BarriersReached(s.items[v])
  }

  ghost predicate Inv(j: Job, s: State)
    requires Launchable(j)
  {
    && (forall w :: w in s.items <==> InGrid(j, w))
    && |s.c| == Times(j.n, j.n)
    && (forall w {:trigger ItemOk(j, s, w)} :: w in s.items ==> ItemOk(j, s, w))
    && (forall w, v {:trigger InStep(s, w, v)} :: w in s.items && v in s.items ==> InStep(s, w, v))
  }

  lemma InitKeeps(j: Job, s: State)
    requires Launchable(j) && Init(j, s)
    ensures Inv(j, s)
  {
  }

  /** While an item multiplies, its fellows have loaded the same tile and none has moved on. */
  lemma FellowsStand(j: Job, s: State, w: Place, v: Place)
    requires Launchable(j) && Inv(j, s) && w in s.items && v in s.items && SameGroup(w, v)
    requires s.items[w].pc == Multiply
    ensures s.items[v].t == s.items[w].t
    ensures s.items[v].pc == Barrier1 || s.items[v].pc == Multiply || s.items[v].pc == Barrier2
  {
    assert InStep(s, w, v) && InStep(s, v, w);
    assert ItemOk(j, s, w) && ItemOk(j, s, v);
  }

  lemma ReadsA(j: Job, s: State, w: Place)
    requires Launchable(j) && Inv(j, s) && w in s.items
    requires s.items[w].pc == Multiply && s.items[w].k < j.tile
    ensures var i := s.items[w];
      ACell(w, i.k) in s.aTile && s.aTile[ACell(w, i.k)] == AElem(j, GlobalRow(j, w), Times(j.tile, i.t) + i.k)
  {
    var u := ACell(w, s.items[w].k);
    assert InGrid(j, w) && InGrid(j, u);
    FellowsStand(j, s, w, u);
    assert ItemOk(j, s, u);
  }

  lemma ReadsB(j: Job, s: State, w: Place)
    requires Launchable(j) && Inv(j, s) && w in s.items
    requires s.items[w].pc == Multiply && s.items[w].k < j.tile
    ensures var i := s.items[w];
      BCell(w, i.k) in s.bTile && s.bTile[BCell(w, i.k)] == BElem(j, Times(j.tile, i.t) + i.k, GlobalCol(j, w))
  {
    var u := BCell(w, s.items[w].k);
    assert InGrid(j, w) && InGrid(j, u);
    FellowsStand(j, s, w, u);
    assert ItemOk(j, s, u);
  }

  /** The cells an item reads hold the operands of its next term. */
  lemma ReadsOperands(j: Job, s: State, w: Place)
    requires Launchable(j) && Inv(j, s) && w in s.items
    requires s.items[w].pc == Multiply && s.items[w].k < j.tile
    ensures var i := s.items[w];
      && ACell(w, i.k) in s.aTile && BCell(w, i.k) in s.bTile
      && s.aTile[ACell(w, i.k)] == AElem(j, GlobalRow(j, w), Times(j.tile, i.t) + i.k)
      && s.bTile[BCell(w, i.k)] == BElem(j, Times(j.tile, i.t) + i.k, GlobalCol(j, w))
  {
    ReadsA(j, s, w);
    ReadsB(j, s, w);
  }

  /** Different items of the grid own different output cells. */
  lemma OutputsDiffer(j: Job, w: Place, v: Place)
    requires Launchable(j) && InGrid(j, w) && InGrid(j, v) && w != v
    requires GlobalRow(j, w) < j.n && GlobalCol(j, w) < j.n && GlobalRow(j, v) < j.n && GlobalCol(j, v) < j.n
    ensures Cell(j.n, GlobalRow(j, w), GlobalCol(j, w)) != Cell(j.n, GlobalRow(j, v), GlobalCol(j, v))
  {
    if Cell(j.n, GlobalRow(j, w), GlobalCol(j, w)) == Cell(j.n, GlobalRow(j, v), GlobalCol(j, v)) {
      SplitUnique(GlobalRow(j, w), GlobalCol(j, w), GlobalRow(j, v), GlobalCol(j, v), j.n);
      SplitUnique(w.groupRow, w.row, v.groupRow, v.row, j.tile);
      SplitUnique(w.groupCol, w.col, v.groupCol, v.col, j.tile);
    }
  }

  lemma CellsKept(j: Job, s: State, s': State, w: Place, v: Place)
    requires Launchable(j) && |s.c| == Times(j.n, j.n) && w in s.items && Next(j, s, w) == Some(s')
    requires v in s.items && v != w && CellsOk(j, s, v)
    ensures v in s'.items && s'.items[v] == s.items[v] && CellsOk(j, s', v)
  {
  }

  /** A step changes nothing an item other than the stepping one relies on. */
  lemma OtherKeeps(j: Job, s: State, s': State, w: Place, v: Place)
    requires Launchable(j) && Inv(j, s) && w in s.items && Next(j, s, w) == Some(s')
    requires v in s.items && v != w
    ensures |s'.c| == Times(j.n, j.n) && v in s'.items && ItemOk(j, s', v)
  {
    assert ItemOk(j, s, v);
    CellsKept(j, s, s', w, v);
    if s.items[v].pc == Done && GlobalRow(j, v) < j.n && GlobalCol(j, v) < j.n {
      OutputKept(j, s, s', w, v);
    }
  }

  lemma OutputKept(j: Job, s: State, s': State, w: Place, v: Place)
    requires Launchable(j) && |s.c| == Times(j.n, j.n) && w in s.items && Next(j, s, w) == Some(s')
    requires InGrid(j, w) && InGrid(j, v) && v != w
    requires GlobalRow(j, v) < j.n && GlobalCol(j, v) < j.n && Stored(j, s.c, v)
    ensures |s'.c| == Times(j.n, j.n) && Stored(j, s'.c, v)
  {
    if GlobalRow(j, w) < j.n && GlobalCol(j, w) < j.n { OutputsDiffer(j, w, v); }
  }

  lemma GridKept(j: Job, s: State, s': State, w: Place)
    requires Launchable(j) && Inv(j, s) && w in s.items && Next(j, s, w) == Some(s')
    ensures |s'.c| == Times(j.n, j.n) && s'.items.Keys == s.items.Keys
  {
  }

  lemma InStepKept(j: Job, s: State, s': State, w: Place)
    requires Launchable(j) && Inv(j, s) && w in s.items && Next(j, s, w) == Some(s')
    ensures forall u, v :: u in s'.items && v in s'.items ==> InStep(s', u, v)
  {
    forall u, v | u in s'.items && v in s'.items ensures InStep(s', u, v) {
      assert InStep(s, u, v) && InStep(s, v, u);
      assert ItemOk(j, s, w);
    }
  }

  lemma LoadKeeps(j: Job, s: State, s': State, w: Place)
    requires Launchable(j) && |s.c| == Times(j.n, j.n) && w in s.items && ItemOk(j, s, w) && Next(j, s, w) == Some(s')
    requires (s.items[w].pc == LoadA && Times(j.tile, s.items[w].t) < j.n) || s.items[w].pc == LoadB
    ensures |s'.c| == Times(j.n, j.n) && w in s'.items && ItemOk(j, s', w)
  {
  }

  lemma StoreKeeps(j: Job, s: State, s': State, w: Place)
    requires Launchable(j) && |s.c| == Times(j.n, j.n) && w in s.items && ItemOk(j, s, w) && Next(j, s, w) == Some(s')
    requires s.items[w].pc == LoadA && Times(j.tile, s.items[w].t) >= j.n
    ensures |s'.c| == Times(j.n, j.n) && w in s'.items && ItemOk(j, s', w)
  {
    PaddingAddsNothing(j, GlobalRow(j, w), GlobalCol(j, w), Times(j.tile, s.items[w].t));
  }

  lemma BarrierKeeps(j: Job, s: State, s': State, w: Place)
    requires Launchable(j) && |s.c| == Times(j.n, j.n) && w in s.items && ItemOk(j, s, w) && Next(j, s, w) == Some(s')
    requires s.items[w].pc == Barrier1 || s.items[w].pc == Barrier2
    ensures |s'.c| == Times(j.n, j.n) && w in s'.items && ItemOk(j, s', w)
  {
  }

  /** One more term of the dot product. */
  lemma TermAdded(j: Job, w: Place, i: Item)
    requires Launchable(j) && BooksOk(j, w, i) && i.pc == Multiply && i.k < j.tile
    ensures var row, col, kk := GlobalRow(j, w), GlobalCol(j, w), Times(j.tile, i.t) + i.k;
      BooksOk(j, w, i.(k := i.k + 1, sum := i.sum + AElem(j, row, kk) * BElem(j, kk, col)))
  {
  }

  /** What a multiply step does, given the operands it reads. */
  lemma MultiplyStep(j: Job, s: State, s': State, w: Place, a: int, b: int)
    requires Launchable(j) && |s.c| == Times(j.n, j.n) && w in s.items
    requires s.items[w].pc == Multiply && Next(j, s, w) == Some(s')
    requires var i := s.items[w];
      i.k < j.tile ==>
        && ACell(w, i.k) in s.aTile && BCell(w, i.k) in s.bTile
        && s.aTile[ACell(w, i.k)] == a && s.bTile[BCell(w, i.k)] == b
    ensures var i := s.items[w];
      var i' := if i.k < j.tile then i.(k := i.k + 1, sum := i.sum + a * b) else i.(pc := Barrier2);
      s' == s.(items := s.items[w := i'])
  {
  }

  lemma MultiplyCells(j: Job, s: State, s': State, w: Place)
    requires Launchable(j) && w in s.items && w in s'.items && CellsOk(j, s, w)
    requires s'.aTile == s.aTile && s'.bTile == s.bTile
    requires s.items[w].pc == Multiply && s'.items[w].t == s.items[w].t && s'.items[w].pc != Done
    ensures CellsOk(j, s', w)
  {
  }

  /** The books after a multiply step. */
  lemma MultiplyBooks(j: Job, w: Place, i: Item, i': Item)
    requires Launchable(j) && BooksOk(j, w, i) && i.pc == Multiply
    requires var kk := Times(j.tile, i.t) + i.k;
      i' == if i.k < j.tile
            then i.(k := i.k + 1, sum := i.sum + AElem(j, GlobalRow(j, w), kk) * BElem(j, kk, GlobalCol(j, w)))
            else i.(pc := Barrier2)
    ensures BooksOk(j, w, i')
  {
    if i.k < j.tile { TermAdded(j, w, i); }
  }

  lemma MultiplyFrom(j: Job, s: State, s': State, w: Place, a: int, b: int)
    requires Launchable(j) && |s.c| == Times(j.n, j.n) && w in s.items
    requires BooksOk(j, w, s.items[w]) && CellsOk(j, s, w) && s.items[w].pc == Multiply && Next(j, s, w) == Some(s')
    requires var kk := Times(j.tile, s.items[w].t) + s.items[w].k;
      a == AElem(j, GlobalRow(j, w), kk) && b == BElem(j, kk, GlobalCol(j, w))
    requires var i := s.items[w];
      i.k < j.tile ==>
        && ACell(w, i.k) in s.aTile && BCell(w, i.k) in s.bTile
        && s.aTile[ACell(w, i.k)] == a && s.bTile[BCell(w, i.k)] == b
    ensures s'.c == s.c && w in s'.items && ItemOk(j, s', w)
  {
    MultiplyStep(j, s, s', w, a, b);
    MultiplyBooks(j, w, s.items[w], s'.items[w]);
    MultiplyCells(j, s, s', w);
  }

  lemma MultiplyKeeps(j: Job, s: State, s': State, w: Place)
    requires Launchable(j) && Inv(j, s) && w in s.items && Next(j, s, w) == Some(s')
    requires s.items[w].pc == Multiply
    ensures |s'.c| == Times(j.n, j.n) && w in s'.items && ItemOk(j, s', w)
  {
    assert ItemOk(j, s, w);
    if s.items[w].k < j.tile { ReadsOperands(j, s, w); }
    var kk := Times(j.tile, s.items[w].t) + s.items[w].k;
    MultiplyFrom(j, s, s', w, AElem(j, GlobalRow(j, w), kk), BElem(j, kk, GlobalCol(j, w)));
  }

  lemma StepKeeps(j: Job, s: State, s': State, w: Place)
    requires Launchable(j) && Inv(j, s) && w in s.items && Next(j, s, w) == Some(s')
    ensures Inv(j, s')
  {
    GridKept(j, s, s', w);
    InStepKept(j, s, s', w);
    assert ItemOk(j, s, w);
    match s.items[w].pc {
      case LoadA => if Times(j.tile, s.items[w].t) < j.n { LoadKeeps(j, s, s', w); } else { StoreKeeps(j, s, s', w); }
      case LoadB => LoadKeeps(j, s, s', w);
      case Multiply => MultiplyKeeps(j, s, s', w);
      case _ => BarrierKeeps(j, s, s', w);
    }
    forall v | v in s'.items ensures ItemOk(j, s', v) {
      if v != w { OtherKeeps(j, s, s', w, v); }
    }
  }

  lemma {:induction false} RunKeeps(j: Job, states: seq<State>, n: nat)
    requires Launchable(j) && IsRun(j, states) && n < |states|
    ensures Inv(j, states[n])
  {
    if n == 0 {
      InitKeeps(j, states[0]);
    } else {
      RunKeeps(j, states, n - 1);
      var s, s' := states[n - 1], states[n];
      assert Moves(j, s, s');
      var w :| w in s.items && Next(j, s, w) == Some(s');
      StepKeeps(j, s, s', w);
    }
  }

  // ------------------------------------------------------------------ main results

  predicate AllDone(s: State) {
    forall w :: w in s.items ==> s.items[w].pc == Done
  }

  /** Under every interleaving, for every size, tile, pair of transpose flags and operands:
      when all items are done, each output cell holds the plain dot product. */
  lemma KernelComputesProduct(j: Job, states: seq<State>, row: nat, col: nat)
    requires Launchable(j) && IsRun(j, states)
    requires AllDone(states[|states| - 1])
    requires row < j.n && col < j.n
    ensures |states[|states| - 1].c| == Times(j.n, j.n)
    ensures states[|states| - 1].c[Cell(j.n, row, col)] == Dot(j, row, col, j.n)
  {
    var s := states[|states| - 1];
    RunKeeps(j, states, |states| - 1);
    var w := OwnerOf(j, row, col);
    assert ItemOk(j, s, w);
  }

  /** The item the rounded-up grid assigns an output cell to. */
  lemma OwnerOf(j: Job, row: nat, col: nat) returns (w: Place)
    requires Launchable(j) && row < j.n && col < j.n
    ensures InGrid(j, w) && GlobalRow(j, w) == row && GlobalCol(j, w) == col
  {
    GridCovers(j);
    var gr, r := BelowQuotient(row, j.tile, Groups(j));
    var gc, c := BelowQuotient(col, j.tile, Groups(j));
    w := Place(gr, gc, r, c);
  }

  lemma BelowQuotient(x: nat, n: nat, g: nat) returns (q: nat, r: nat)
    requires n > 0 && x < Times(n, g)
    ensures q < g && r < n && Times(n, q) + r == x
  {
    q, r := x / n, x % n;
    TimesIsProduct(n, q);
    assert x == n * q + r;
    if q > g { TimesGrows(n, g, q); }
  }

  /** What an item touches next in local memory: the cell of the A tile, the cell of the
      B tile, and whether it writes. */
  datatype Access = Access(inA: bool, cell: Place, write: bool)

  predicate Touches(j: Job, w: Place, i: Item, a: Access) {
    match i.pc
    case LoadA => Times(j.tile, i.t) < j.n && a == Access(true, w, true)
    case LoadB => a == Access(false, w, true)
    case Multiply =>
      i.k < j.tile && (a == Access(true, ACell(w, i.k), false) || a == Access(false, BCell(w, i.k), false))
    case _ => false
  }

  /** No race: two different items never have conflicting accesses to one cell due. */
  lemma NoRace(j: Job, states: seq<State>, n: nat, w: Place, v: Place, a: Access, b: Access)
    requires Launchable(j) && IsRun(j, states) && n < |states|
    requires w in states[n].items && v in states[n].items && w != v
    requires Touches(j, w, states[n].items[w], a) && Touches(j, v, states[n].items[v], b)
    requires a.inA == b.inA && a.cell == b.cell
    ensures !a.write && !b.write
  {
    RunKeeps(j, states, n);
    var s := states[n];
    if s.items[w].pc == Multiply { FellowsStand(j, s, w, v); }
    if s.items[v].pc == Multiply { FellowsStand(j, s, v, w); }
  }

  /** A member of a non-empty set of items that has passed the fewest barriers. */
  lemma {:induction false} Hindmost(s: State, ws: set<Place>) returns (w: Place)
    requires ws != {} && forall v :: v in ws ==> v in s.items
    ensures w in ws && forall v :: v in ws ==> BarriersPassed(s.items[w]) <= BarriersPassed(s.items[v])
    decreases |ws|
  {
    var u :| u in ws;
    w := u;
    if ws != {u} {
      assert ws == (ws - {u}) + {u};
      w := Hindmost(s, ws - {u});
      if BarriersPassed(s.items[u]) < BarriersPassed(s.items[w]) { w := u; }
    }
  }

  predicate AtBarrier(i: Item) { i.pc == Barrier1 || i.pc == Barrier2 }

  /** An item that waits at no barrier can step. */
  lemma FreeItemSteps(j: Job, s: State, w: Place)
    requires Launchable(j) && Inv(j, s) && w in s.items && s.items[w].pc != Done && !AtBarrier(s.items[w])
    ensures |s.c| == Times(j.n, j.n) && Next(j, s, w).Some?
  {
    if s.items[w].pc == Multiply && s.items[w].k < j.tile { ReadsOperands(j, s, w); }
  }

  /** If all items that are not done wait at a barrier, the hindmost of them can step. */
  lemma WaitingItemSteps(j: Job, s: State) returns (w: Place)
    requires Launchable(j) && Inv(j, s) && !AllDone(s)
    requires forall v :: v in s.items ==> s.items[v].pc == Done || AtBarrier(s.items[v])
    ensures w in s.items && |s.c| == Times(j.n, j.n) && Next(j, s, w).Some?
  {
    var waiting := set v | v in s.items && AtBarrier(s.items[v]);
    assert waiting != {} by {
      var u :| u in s.items && s.items[u].pc != Done;
      assert u in waiting;
    }
    w := Hindmost(s, waiting);
    HindmostPasses(j, s, w, waiting);
  }

  /** No deadlock at the barriers: until all items are done, some item can step. */
  lemma SomeItemCanStep(j: Job, states: seq<State>, n: nat) returns (w: Place)
    requires Launchable(j) && IsRun(j, states) && n < |states| && !AllDone(states[n])
    ensures |states[n].c| == Times(j.n, j.n) && w in states[n].items && Next(j, states[n], w).Some?
  {
    RunKeeps(j, states, n);
    if v :| v in states[n].items && states[n].items[v].pc != Done && !AtBarrier(states[n].items[v]) {
      w := v;
      FreeItemSteps(j, states[n], w);
    } else {
      w := WaitingItemSteps(j, states[n]);
    }
  }

  lemma HindmostPasses(j: Job, s: State, w: Place, waiting: set<Place>)
    requires Launchable(j) && Inv(j, s) && w in s.items && AtBarrier(s.items[w])
    requires forall v :: v in s.items ==> s.items[v].pc == Done || v in waiting
    requires forall v :: v in waiting ==>
      v in s.items && AtBarrier(s.items[v]) && BarriersPassed(s.items[w]) <= BarriersPassed(s.items[v])
    ensures GroupArrived(s, w)
  {
    assert ItemOk(j, s, w);
    forall v | v in s.items && SameGroup(v, w) ensures BarriersReached(s.items[v]) > BarriersPassed(s.items[w]) {
      assert ItemOk(j, s, v);
      if s.items[v].pc == Done { TilesOrdered(s.items[w].t, s.items[v].t, j.tile, j.n); }
    }
  }

  lemma TilesOrdered(t: nat, u: nat, tile: nat, n: nat)
    requires Times(tile, t) < n <= Times(tile, u)
    ensures t < u
  {
    if u < t { TimesGrows(tile, u, t); }
  }

  // ------------------------------------------------------------ a whole launch

  function Above(a: nat, b: nat): nat { if a > b then a - b else 0 }

  /** A bound on the steps an item still has to take. */
  function StepsLeft(j: Job, i: Item): nat
    requires i.k <= j.tile
  {
    if i.pc == Done then 0
    else
      Times(j.tile + 6, Above(j.n, Times(j.tile, i.t)))
      + match i.pc
        case LoadA => j.tile + 6
        case LoadB => j.tile + 5
        case Barrier1 => j.tile + 4
        case Multiply => j.tile - i.k + 3
        case _ => 2
  }

  lemma NextTile(j: Job, i: Item)
    requires Launchable(j) && i.k <= j.tile && i.pc == Barrier2 && Times(j.tile, i.t) < j.n
    ensures StepsLeft(j, i.(pc := LoadA, t := i.t + 1)) < StepsLeft(j, i)
  {
    TimesGrows(j.tile + 6, Above(j.n, Times(j.tile, i.t + 1)), Above(j.n, Times(j.tile, i.t)));
  }

  /** What a step makes of the stepping item. */
  ghost predicate ItemMoves(j: Job, i: Item, i': Item)
    requires Launchable(j)
  {
    match i.pc
    case LoadA => i' == i.(pc := Done) || i' == i.(pc := LoadB)
    case LoadB => i' == i.(pc := Barrier1)
    case Barrier1 => i' == i.(pc := Multiply, k := 0)
    case Multiply => i' == i.(pc := Barrier2) || (i.k < j.tile && i' == i.(k := i.k + 1, sum := i'.sum))
    case Barrier2 => i' == i.(pc := LoadA, t := i.t + 1)
    case Done => false
  }

  lemma StepMoves(j: Job, s: State, s': State, w: Place)
    requires Launchable(j) && w in s.items && |s.c| == Times(j.n, j.n) && Next(j, s, w) == Some(s')
    ensures s'.items.Keys == s.items.Keys && ItemMoves(j, s.items[w], s'.items[w])
    ensures forall v :: v in s.items && v != w ==> s'.items[v] == s.items[v]
  {
  }

  /** Every move brings its item nearer to its end. */
  lemma MovesAdvance(j: Job, i: Item, i': Item)
    requires Launchable(j) && i.k <= j.tile && ItemMoves(j, i, i')
    requires i.pc == Barrier2 ==> Times(j.tile, i.t) < j.n
    ensures i'.k <= j.tile && StepsLeft(j, i') < StepsLeft(j, i)
  {
    if i.pc == Barrier2 { NextTile(j, i); }
  }

  /** A step brings its item nearer to its end and leaves the others where they are. */
  lemma StepAdvances(j: Job, s: State, s': State, w: Place)
    requires Launchable(j) && Inv(j, s) && w in s.items && Next(j, s, w) == Some(s')
    ensures s'.items.Keys == s.items.Keys
    ensures s.items[w].k <= j.tile && s'.items[w].k <= j.tile
    ensures StepsLeft(j, s'.items[w]) < StepsLeft(j, s.items[w])
    ensures forall v :: v in s.items && v != w ==> s'.items[v] == s.items[v]
  {
    assert ItemOk(j, s, w);
    StepMoves(j, s, s', w);
    MovesAdvance(j, s.items[w], s'.items[w]);
  }

  ghost predicate Bounded(j: Job, items: map<Place, Item>, places: seq<Place>) {
    forall w :: w in places ==> w in items && items[w].k <= j.tile
  }

  ghost function TotalLeft(j: Job, items: map<Place, Item>, places: seq<Place>): nat
    requires Bounded(j, items, places)
  {
    if places == [] then 0
    else
      assert places[0] in places;
      StepsLeft(j, items[places[0]]) + TotalLeft(j, items, places[1..])
  }

  lemma {:induction false} TotalShrinks(j: Job, items: map<Place, Item>, items': map<Place, Item>,
                                        places: seq<Place>, w: Place)
    requires Bounded(j, items, places) && Bounded(j, items', places) && w in items && w in items'
    requires items[w].k <= j.tile && items'[w].k <= j.tile
    requires StepsLeft(j, items'[w]) < StepsLeft(j, items[w])
    requires forall v :: v in places && v != w ==> items'[v] == items[v]
    ensures TotalLeft(j, items', places) <= TotalLeft(j, items, places)
    ensures w in places ==> TotalLeft(j, items', places) < TotalLeft(j, items, places)
  {
    if places != [] {
      assert places[0] in places;
      TotalShrinks(j, items, items', places[1..], w);
    }
  }

  lemma {:induction false} Enumerated(ws: set<Place>) returns (places: seq<Place>)
    ensures forall w :: w in places <==> w in ws
    decreases |ws|
  {
    places := [];
    if ws != {} {
      var u :| u in ws;
      assert ws == (ws - {u}) + {u};
      places := Enumerated(ws - {u});
      places := places + [u];
    }
  }

  lemma ItemsBounded(j: Job, s: State, places: seq<Place>)
    requires Launchable(j) && Inv(j, s) && forall w :: w in places ==> w in s.items
    ensures Bounded(j, s.items, places)
  {
    forall w | w in places ensures s.items[w].k <= j.tile { assert ItemOk(j, s, w); }
  }

  /** The whole rounded-up grid at its first instruction. */
  function Launched(j: Job, c: seq<int>): State
    requires Launchable(j)
  {
    var side := Groups(j);
    State(
      map gr: nat, gc: nat, r: nat, cl: nat | gr < side && gc < side && r < j.tile && cl < j.tile
        :: Place(gr, gc, r, cl) := Item(LoadA, 0, 0, 0),
      map[], map[], c)
  }

  lemma LaunchedIsInit(j: Job, c: seq<int>)
    requires Launchable(j) && |c| == Times(j.n, j.n)
    ensures Init(j, Launched(j, c)) && IsRun(j, [Launched(j, c)])
  {
    var s := Launched(j, c);
    forall w ensures w in s.items <==> InGrid(j, w) {
      assert w == Place(w.groupRow, w.groupCol, w.row, w.col);
    }
  }

  lemma RunExtends(j: Job, states: seq<State>, s': State)
    requires Launchable(j) && IsRun(j, states) && Moves(j, states[|states| - 1], s')
    ensures IsRun(j, states + [s'])
  {
  }

  /** The launch so far: a run that has come to `s`, and the places of all its items. */
  ghost predicate Underway(j: Job, states: seq<State>, s: State, places: seq<Place>)
    requires Launchable(j)
  {
    && IsRun(j, states) && states[|states| - 1] == s && |s.c| == Times(j.n, j.n)
    && (forall w :: w in places <==> w in s.items) && Bounded(j, s.items, places)
  }

  lemma Begun(j: Job, c: seq<int>) returns (places: seq<Place>)
    requires Launchable(j) && |c| == Times(j.n, j.n)
    ensures Underway(j, [Launched(j, c)], Launched(j, c), places)
  {
    var s := Launched(j, c);
    LaunchedIsInit(j, c);
    InitKeeps(j, s);
    places := Enumerated(s.items.Keys);
    ItemsBounded(j, s, places);
  }

  /** One scheduling decision keeps the launch a run and brings it nearer to its end. */
  lemma Scheduled(j: Job, states: seq<State>, s: State, s': State, places: seq<Place>, w: Place)
    requires Launchable(j) && Underway(j, states, s, places) && w in s.items && Next(j, s, w) == Some(s')
    ensures Underway(j, states + [s'], s', places)
    ensures TotalLeft(j, s'.items, places) < TotalLeft(j, s.items, places)
  {
    RunKeeps(j, states, |states| - 1);
    StepKeeps(j, s, s', w);
    StepAdvances(j, s, s', w);
    ItemsBounded(j, s', places);
    TotalShrinks(j, s.items, s'.items, places, w);
    assert Moves(j, s, s');
    RunExtends(j, states, s');
  }

  lemma Product(j: Job, states: seq<State>)
    requires Launchable(j) && IsRun(j, states) && AllDone(states[|states| - 1])
    ensures IsProduct(j, states[|states| - 1].c)
  {
    RunKeeps(j, states, |states| - 1);
    var c := states[|states| - 1].c;
    forall row: nat, col: nat | row < j.n && col < j.n ensures c[Cell(j.n, row, col)] == Dot(j, row, col, j.n) {
      KernelComputesProduct(j, states, row, col);
    }
  }

  ghost predicate IsProduct(j: Job, c: seq<int>)
    requires Launchable(j)
  {
    && |c| == Times(j.n, j.n)
    && forall row: nat, col: nat :: row < j.n && col < j.n ==> c[Cell(j.n, row, col)] == Dot(j, row, col, j.n)
  }

  /** An output cell in terms of the stored operands alone: the sum over the row and the column
      it is made of, and with a unit operand the other one's entry, transposed where its flag
      says so. */
  ghost predicate CellMultiplies(j: Job, c: seq<int>, row: nat, col: nat) {
    var n := j.n;
    row * n + col < |c|
    && var cell := c[row * n + col];
      && (!j.ta && !j.tb ==> cell == SumOfProducts(n, Along(j.a, n, row), Down(j.b, n, col)))
      && (!j.ta && j.tb ==> cell == SumOfProducts(n, Along(j.a, n, row), Along(j.b, n, col)))
      && (j.ta && !j.tb ==> cell == SumOfProducts(n, Down(j.a, n, row), Down(j.b, n, col)))
      && (j.ta && j.tb ==> cell == SumOfProducts(n, Down(j.a, n, row), Along(j.b, n, col)))
      && (IsUnit(j.b, n) && !j.ta ==> cell == At(j.a, row * n + col))
      && (IsUnit(j.b, n) && j.ta ==> cell == At(j.a, col * n + row))
      && (IsUnit(j.a, n) && !j.tb ==> cell == At(j.b, row * n + col))
      && (IsUnit(j.a, n) && j.tb ==> cell == At(j.b, col * n + row))
  }

  lemma ProductMultiplies(j: Job, c: seq<int>, row: nat, col: nat)
    requires Launchable(j) && IsProduct(j, c) && row < j.n && col < j.n
    ensures CellMultiplies(j, c, row, col)
  {
    CellIsProduct(j.n, row, col);
    assert c[Cell(j.n, row, col)] == Dot(j, row, col, j.n);
    DotIsRaw(j, row, col);
    if IsUnit(j.b, j.n) { UnitLetsFirstThrough(j, row, col); }
    if IsUnit(j.a, j.n) { UnitLetsSecondThrough(j, row, col); }
  }

  /** The same at the end of every completed run. */
  lemma KernelMultiplies(j: Job, states: seq<State>, row: nat, col: nat)
    requires Launchable(j) && IsRun(j, states) && AllDone(states[|states| - 1])
    requires row < j.n && col < j.n
    ensures CellMultiplies(j, states[|states| - 1].c, row, col)
  {
    Product(j, states);
    ProductMultiplies(j, states[|states| - 1].c, row, col);
  }

  /** `enqueue_gemm` and the kernel run to its end, the device letting any work-item that
      can step go next: the launch ends and leaves the product. */
  method EnqueueGemm(j: Job, before: seq<int>) returns (c: seq<int>)
    requires Launchable(j) && |before| == Times(j.n, j.n)
    ensures IsProduct(j, c)
    ensures forall row: nat, col: nat :: row < j.n && col < j.n ==> CellMultiplies(j, c, row, col)
  {
    var s := Launched(j, before);
    ghost var states := [s];
    ghost var places := Begun(j, before);
    while !AllDone(s)
      invariant Underway(j, states, s, places)
      decreases TotalLeft(j, s.items, places)
    {
      ghost var able := SomeItemCanStep(j, states, |states| - 1);
      var w :| w in s.items && Next(j, s, w).Some?;
      var s' := Next(j, s, w).value;
      Scheduled(j, states, s, s', places, w);
      states := states + [s'];
      s := s';
    }
    Product(j, states);
    c := s.c;
    forall row: nat, col: nat | row < j.n && col < j.n ensures CellMultiplies(j, c, row, col) {
      ProductMultiplies(j, c, row, col);
    }
  }

  // ------------------------------------------------------------ the sampled checker

  /** A cell of the output as the device holds it. */
  datatype Scalar = Finite(value: int) | NonFinite

  /** What one sampled cell comes to: within tolerance, off by a difference, or not a number. */
  datatype Verdict = Fine | Off(diff: nat) | Odd

  const SAMPLE_CAP: nat := 65536
  const NO_SAMPLE: nat := 0xFFFF_FFFF

  function Judge(product: int, cell: Scalar, tolerance: int -> int): Verdict {
    if cell.NonFinite? then Odd
    else
      var diff := if product < cell.value then cell.value - product else product - cell.value;
      if diff > tolerance(product) then Off(diff) else Fine
  }

  predicate Sampled(j: Job, c: seq<Scalar>, samples: seq<(nat, nat)>) {
    && Launchable(j) && |c| == Times(j.n, j.n) && |samples| <= SAMPLE_CAP
    && forall k :: 0 <= k < |samples| ==> samples[k].0 < j.n && samples[k].1 < j.n
  }

  /** The verdict sample `k` deserves. */
  function VerdictOf(j: Job, c: seq<Scalar>, samples: seq<(nat, nat)>, tolerance: int -> int, k: nat): Verdict
    requires Sampled(j, c, samples) && k < |samples|
  {
    var (row, col) := samples[k];
    Judge(Dot(j, row, col, j.n), c[Cell(j.n, row, col)], tolerance)
  }

  /** The words the checker's items share. */
  datatype SampleReport = SampleReport(mismatch: nat, nonfinite: nat, maxDiff: nat, firstBad: nat,
                                       checked: nat, groups: nat)

  /** The samples with a verdict of one kind. */
  function OffSamples(verdicts: seq<Verdict>): set<nat> { set k | 0 <= k < |verdicts| && verdicts[k].Off? }
  function OddSamples(verdicts: seq<Verdict>): set<nat> { set k | 0 <= k < |verdicts| && verdicts[k].Odd? }

  /** What the finished check reports. */
  ghost predicate Reports(verdicts: seq<Verdict>, r: SampleReport) {
    && r.mismatch == |OffSamples(verdicts)| && r.nonfinite == |OddSamples(verdicts)|
    && r.checked == |verdicts| && r.groups == |verdicts|
    && (if OffSamples(verdicts) == {} then r.firstBad == NO_SAMPLE && r.maxDiff == 0
        else
          && r.firstBad in OffSamples(verdicts)
          && (forall k :: k in OffSamples(verdicts) ==> verdicts[k].diff <= r.maxDiff)
          && exists k :: k in OffSamples(verdicts) && verdicts[k].diff == r.maxDiff)
  }

  lemma IndicesFit(j: Job, row: nat, col: nat, k: nat)
    requires Launchable(j) && row < j.n && col < j.n && k < j.n
    ensures 0 <= row * j.n + k < |j.a| && 0 <= k * j.n + row < |j.a|
    ensures 0 <= col * j.n + k < |j.b| && 0 <= k * j.n + col < |j.b|
  {
    CellIsProduct(j.n, row, k);
    CellIsProduct(j.n, k, row);
    CellIsProduct(j.n, col, k);
    CellIsProduct(j.n, k, col);
  }

  /** The accumulation loop of one checker item, on the raw indices. */
  method Recompute(j: Job, row: nat, col: nat) returns (acc: int)
    requires Launchable(j) && row < j.n && col < j.n
    ensures acc == Dot(j, row, col, j.n)
  {
    acc := 0;
    for kk := 0 to j.n
      invariant acc == Dot(j, row, col, kk)
    {
      ElementsAreRaw(j, row, col, kk);
      IndicesFit(j, row, col, kk);
      var ai := if j.ta then kk * j.n + row else row * j.n + kk;
      var bi := if j.tb then col * j.n + kk else kk * j.n + col;
      acc := acc + j.a[ai] * j.b[bi];
    }
  }

  // One atomic update of one item, on the word of the report it touches.

  datatype Slot = MaxDiff | FirstBad | Mismatch | NonFinites | Checked | GroupsDone
  datatype Update = Update(item: nat, slot: Slot)

  const SLOTS: set<Slot> := {MaxDiff, FirstBad, Mismatch, NonFinites, Checked, GroupsDone}

  function Updates(m: nat): set<Update> {
    set k, s | k in Range(m) && s in SLOTS :: Update(k, s)
  }

  lemma UpdatesAre(m: nat)
    ensures forall u :: u in Updates(m) <==> u.item < m
  {
    forall u: Update ensures u.slot in SLOTS {
      match u.slot {
        case MaxDiff => case FirstBad => case Mismatch =>
        case NonFinites => case Checked => case GroupsDone =>
      }
    }
  }

  function Apply(r: SampleReport, v: Verdict, u: Update): SampleReport {
    match u.slot
    case MaxDiff => if v.Off? && v.diff > r.maxDiff then r.(maxDiff := v.diff) else r
    case FirstBad => if v.Off? && r.firstBad == NO_SAMPLE then r.(firstBad := u.item) else r
    case Mismatch => if v.Off? then r.(mismatch := r.mismatch + 1) else r
    case NonFinites => if v.Odd? then r.(nonfinite := r.nonfinite + 1) else r
    case Checked => r.(checked := r.checked + 1)
    case GroupsDone => r.(groups := r.groups + 1)
  }

  /** The items whose update of one word is done, among those in `of`. */
  function DoneOf(todo: set<Update>, slot: Slot, of: set<nat>): set<nat> {
    set k | k in of && Update(k, slot) !in todo
  }

  /** What the report holds while the updates in `todo` are still to come. */
  ghost predicate SoFar(verdicts: seq<Verdict>, todo: set<Update>, r: SampleReport) {
    var off := OffSamples(verdicts);
    && r.mismatch == |DoneOf(todo, Mismatch, off)|
    && r.nonfinite == |DoneOf(todo, NonFinites, OddSamples(verdicts))|
    && r.checked == |DoneOf(todo, Checked, Range(|verdicts|))|
    && r.groups == |DoneOf(todo, GroupsDone, Range(|verdicts|))|
    && FirstSoFar(off, todo, r) && MaxSoFar(verdicts, todo, r)
  }

  ghost predicate FirstSoFar(off: set<nat>, todo: set<Update>, r: SampleReport) {
    var done := DoneOf(todo, FirstBad, off);
    if done == {} then r.firstBad == NO_SAMPLE else r.firstBad in done
  }

  ghost predicate MaxSoFar(verdicts: seq<Verdict>, todo: set<Update>, r: SampleReport) {
    var done := DoneOf(todo, MaxDiff, OffSamples(verdicts));
    && (forall k :: k in done ==> verdicts[k].diff <= r.maxDiff)
    && (r.maxDiff == 0 || exists k :: k in done && verdicts[k].diff == r.maxDiff)
  }

  /** An update makes its own item one of the finished ones of its own word. */
  lemma DoneGrows(todo: set<Update>, u: Update, slot: Slot, of: set<nat>)
    requires u in todo
    ensures DoneOf(todo - {u}, slot, of)
         == if u.slot == slot && u.item in of then DoneOf(todo, slot, of) + {u.item} else DoneOf(todo, slot, of)
    ensures u.slot == slot ==> u.item !in DoneOf(todo, slot, of)
  {
  }

  lemma CountKept(todo: set<Update>, u: Update, slot: Slot, of: set<nat>, n: nat, n': nat)
    requires u in todo && n == |DoneOf(todo, slot, of)|
    requires n' == if u.slot == slot && u.item in of then n + 1 else n
    ensures n' == |DoneOf(todo - {u}, slot, of)|
  {
    DoneGrows(todo, u, slot, of);
  }

  lemma UpdateKeeps(verdicts: seq<Verdict>, todo: set<Update>, u: Update, r: SampleReport)
    requires SoFar(verdicts, todo, r) && u in todo && u.item < |verdicts| <= SAMPLE_CAP
    ensures SoFar(verdicts, todo - {u}, Apply(r, verdicts[u.item], u))
  {
    var r' := Apply(r, verdicts[u.item], u);
    CountKept(todo, u, Mismatch, OffSamples(verdicts), r.mismatch, r'.mismatch);
    CountKept(todo, u, NonFinites, OddSamples(verdicts), r.nonfinite, r'.nonfinite);
    CountKept(todo, u, Checked, Range(|verdicts|), r.checked, r'.checked);
    CountKept(todo, u, GroupsDone, Range(|verdicts|), r.groups, r'.groups);
    FirstKept(verdicts, todo, u, r);
    MaxKept(verdicts, todo, u, r);
  }

  lemma FirstKept(verdicts: seq<Verdict>, todo: set<Update>, u: Update, r: SampleReport)
    requires FirstSoFar(OffSamples(verdicts), todo, r) && u in todo && u.item < |verdicts| <= SAMPLE_CAP
    ensures FirstSoFar(OffSamples(verdicts), todo - {u}, Apply(r, verdicts[u.item], u))
  {
    DoneGrows(todo, u, FirstBad, OffSamples(verdicts));
  }

  lemma MaxKept(verdicts: seq<Verdict>, todo: set<Update>, u: Update, r: SampleReport)
    requires MaxSoFar(verdicts, todo, r) && u in todo && u.item < |verdicts|
    ensures MaxSoFar(verdicts, todo - {u}, Apply(r, verdicts[u.item], u))
  {
    var off := OffSamples(verdicts);
    DoneGrows(todo, u, MaxDiff, off);
    var done, done' := DoneOf(todo, MaxDiff, off), DoneOf(todo - {u}, MaxDiff, off);
    if k :| k in done && verdicts[k].diff == r.maxDiff { assert k in done'; }
    if u.slot == MaxDiff && verdicts[u.item].Off? { assert u.item in done'; }
  }

  lemma NothingDone(verdicts: seq<Verdict>)
    ensures SoFar(verdicts, Updates(|verdicts|), SampleReport(0, 0, 0, NO_SAMPLE, 0, 0))
  {
    var todo := Updates(|verdicts|);
    UpdatesAre(|verdicts|);
    assert DoneOf(todo, Mismatch, OffSamples(verdicts)) == {};
    assert DoneOf(todo, NonFinites, OddSamples(verdicts)) == {};
    assert DoneOf(todo, Checked, Range(|verdicts|)) == {};
    assert DoneOf(todo, GroupsDone, Range(|verdicts|)) == {};
    assert DoneOf(todo, FirstBad, OffSamples(verdicts)) == {};
  }

  lemma AllDoneReports(verdicts: seq<Verdict>, r: SampleReport)
    requires SoFar(verdicts, {}, r)
    ensures Reports(verdicts, r)
  {
    var off, odd, all := OffSamples(verdicts), OddSamples(verdicts), Range(|verdicts|);
    assert DoneOf({}, Mismatch, off) == off && DoneOf({}, MaxDiff, off) == off && DoneOf({}, FirstBad, off) == off;
    assert DoneOf({}, NonFinites, odd) == odd;
    assert DoneOf({}, Checked, all) == all && DoneOf({}, GroupsDone, all) == all;
    RangeSize(|verdicts|);
    if off != {} {
      var k :| k in off;
      assert verdicts[k].diff <= r.maxDiff;
    }
  }

  /** The verdicts of all samples. */
  function Verdicts(j: Job, c: seq<Scalar>, samples: seq<(nat, nat)>, tolerance: int -> int): (vs: seq<Verdict>)
    requires Sampled(j, c, samples)
    ensures |vs| == |samples|
  {
    seq(|samples|, k requires 0 <= k < |samples| => VerdictOf(j, c, samples, tolerance, k))
  }

  /** What the items compute, each for its own sample. */
  method JudgeSamples(j: Job, c: seq<Scalar>, tolerance: int -> int, samples: seq<(nat, nat)>)
    returns (verdicts: seq<Verdict>)
    requires Sampled(j, c, samples)
    ensures verdicts == Verdicts(j, c, samples, tolerance)
  {
    verdicts := [];
    for k := 0 to |samples|
      invariant |verdicts| == k
      invariant forall i :: 0 <= i < k ==> verdicts[i] == VerdictOf(j, c, samples, tolerance, i)
    {
      var (row, col) := samples[k];
      var acc := Recompute(j, row, col);
      verdicts := verdicts + [Judge(acc, c[Cell(j.n, row, col)], tolerance)];
    }
  }

  /** `first` is the first bad sample in the order in which the items came to report one. */
  ghost predicate FirstBadOf(verdicts: seq<Verdict>, order: seq<nat>, first: nat) {
    && (forall i :: 0 <= i < |order| ==> order[i] < |verdicts|)
    && (first == NO_SAMPLE ==> forall i :: 0 <= i < |order| ==> !verdicts[order[i]].Off?)
    && (first != NO_SAMPLE ==> exists i :: 0 <= i < |order| && ComesFirst(verdicts, order, i) && order[i] == first)
  }

  ghost predicate ComesFirst(verdicts: seq<Verdict>, order: seq<nat>, i: nat)
    requires i < |order| && forall j :: 0 <= j < |order| ==> order[j] < |verdicts|
  {
    verdicts[order[i]].Off? && forall j :: 0 <= j < i ==> !verdicts[order[j]].Off?
  }

  /** A later item does not displace the first one. */
  lemma FirstBadStays(verdicts: seq<Verdict>, order: seq<nat>, u: Update, r: SampleReport)
    requires u.item < |verdicts| <= SAMPLE_CAP && u.slot == FirstBad && FirstBadOf(verdicts, order, r.firstBad)
    ensures FirstBadOf(verdicts, order + [u.item], Apply(r, verdicts[u.item], u).firstBad)
  {
    var longer := order + [u.item];
    if r.firstBad != NO_SAMPLE {
      var i :| 0 <= i < |order| && ComesFirst(verdicts, order, i) && order[i] == r.firstBad;
      assert ComesFirst(verdicts, longer, i);
    } else if verdicts[u.item].Off? {
      assert ComesFirst(verdicts, longer, |order|);
    }
  }

  /** The order of the reports so far. */
  ghost predicate OrderSoFar(verdicts: seq<Verdict>, todo: set<Update>, order: seq<nat>, r: SampleReport) {
    && FirstBadOf(verdicts, order, r.firstBad)
    && forall k: nat :: k < |verdicts| && Update(k, FirstBad) !in todo ==> k in order
  }

  lemma OrderKept(verdicts: seq<Verdict>, todo: set<Update>, u: Update, order: seq<nat>, r: SampleReport)
    requires OrderSoFar(verdicts, todo, order, r) && u.item < |verdicts| <= SAMPLE_CAP
    ensures OrderSoFar(verdicts, todo - {u}, if u.slot == FirstBad then order + [u.item] else order,
                       Apply(r, verdicts[u.item], u))
  {
    if u.slot == FirstBad { FirstBadStays(verdicts, order, u, r); }
  }

  /** `gemm_sample_check`: every item recomputes its cell, and the items' atomic updates of the
      shared words come in any order; `order` is the one in which they come to report a bad
      sample. */
  method GemmSampleCheck(j: Job, c: seq<Scalar>, tolerance: int -> int, samples: seq<(nat, nat)>)
    returns (r: SampleReport, ghost order: seq<nat>)
    requires Sampled(j, c, samples)
    ensures Reports(Verdicts(j, c, samples, tolerance), r)
    ensures (forall k: nat :: k < |samples| ==> k in order)
         && FirstBadOf(Verdicts(j, c, samples, tolerance), order, r.firstBad)
  {
    var verdicts := JudgeSamples(j, c, tolerance, samples);
    r := SampleReport(0, 0, 0, NO_SAMPLE, 0, 0);
    var todo := Updates(|samples|);
    UpdatesAre(|samples|);
    order := [];
    NothingDone(verdicts);
    while todo != {}
      invariant SoFar(verdicts, todo, r) && forall u :: u in todo ==> u.item < |samples|
      invariant OrderSoFar(verdicts, todo, order, r)
      decreases todo
    {
      var u :| u in todo;
      UpdateKeeps(verdicts, todo, u, r);
      OrderKept(verdicts, todo, u, order, r);
      order := if u.slot == FirstBad then order + [u.item] else order;
      r := Apply(r, verdicts[u.item], u);
      todo := todo - {u};
    }
    AllDoneReports(verdicts, r);
  }

  /** A matrix of numbers as the device holds it. */
  function Finites(c: seq<int>): seq<Scalar> { seq(|c|, i requires 0 <= i < |c| => Finite(c[i])) }

  /** Nothing is reported if and only if every verdict is a good one. */
  lemma NothingFoundIff(verdicts: seq<Verdict>, r: SampleReport)
    requires Reports(verdicts, r)
    ensures r.mismatch == 0 && r.nonfinite == 0 <==> forall k :: 0 <= k < |verdicts| ==> verdicts[k] == Fine
  {
    if k :| 0 <= k < |verdicts| && verdicts[k] != Fine {
      assert k in OffSamples(verdicts) || k in OddSamples(verdicts);
    } else {
      assert OffSamples(verdicts) == {} && OddSamples(verdicts) == {};
    }
  }

  /** The checker agrees with the kernel: on the output of any completed run it finds nothing,
      at any tolerance that is not negative. */
  lemma CheckerAcceptsKernel(j: Job, states: seq<State>, tolerance: int -> int, samples: seq<(nat, nat)>,
                             r: SampleReport)
    requires Launchable(j) && IsRun(j, states) && AllDone(states[|states| - 1])
    requires Sampled(j, Finites(states[|states| - 1].c), samples)
    requires forall x :: tolerance(x) >= 0
    requires Reports(Verdicts(j, Finites(states[|states| - 1].c), samples, tolerance), r)
    ensures r == SampleReport(0, 0, 0, NO_SAMPLE, |samples|, |samples|)
  {
    var verdicts := Verdicts(j, Finites(states[|states| - 1].c), samples, tolerance);
    forall k | 0 <= k < |samples| ensures verdicts[k] == Fine {
      KernelComputesProduct(j, states, samples[k].0, samples[k].1);
    }
    NothingFoundIff(verdicts, r);
    assert OffSamples(verdicts) == {};
  }

  /** Within tolerance of the product, and a number at all. */
  predicate Near(product: int, cell: Scalar, tolerance: int -> int) {
    cell.Finite? && -tolerance(product) <= cell.value - product <= tolerance(product)
  }

  /** And it misses nothing it samples: it finds nothing if and only if every sampled cell is a
      number within tolerance of the dot product. */
  lemma ChecksOutIff(j: Job, c: seq<Scalar>, tolerance: int -> int, samples: seq<(nat, nat)>, r: SampleReport)
    requires Sampled(j, c, samples) && Reports(Verdicts(j, c, samples, tolerance), r)
    ensures r.mismatch == 0 && r.nonfinite == 0 <==>
      forall k :: 0 <= k < |samples| ==>
        Near(Dot(j, samples[k].0, samples[k].1, j.n), c[Cell(j.n, samples[k].0, samples[k].1)], tolerance)
  {
    var verdicts := Verdicts(j, c, samples, tolerance);
    NothingFoundIff(verdicts, r);
    forall k | 0 <= k < |samples|
      ensures verdicts[k] == Fine <==>
        Near(Dot(j, samples[k].0, samples[k].1, j.n), c[Cell(j.n, samples[k].0, samples[k].1)], tolerance)
    {
    }
  }

  /** With no tolerance a sample is counted if and only if its cell is another number than the
      dot product. */
  lemma ExactCheckerCountsErrors(j: Job, c: seq<Scalar>, samples: seq<(nat, nat)>, k: nat)
    requires Sampled(j, c, samples) && k < |samples|
    ensures var cell := c[Cell(j.n, samples[k].0, samples[k].1)];
      k in OffSamples(Verdicts(j, c, samples, _ => 0)) <==>
        cell.Finite? && cell.value != Dot(j, samples[k].0, samples[k].1, j.n)
  {
  }
}
