/**
 * The cuckoo cache as a value: cells with their collection and epoch flags, and what insert,
 * contains and the epoch check do to them.
 */
module Cuckoo {
  import opened Numbers

  /** Elements are numbers; the element a fresh table is filled with is 0. */
  type Element = nat

  const BLANK: Element := 0

  datatype Cell = Cell(element: Element, collect: bool, recent: bool)

  datatype State = State(cells: seq<Cell>, counter: nat)

  /** Sizes, and the eight 32-bit hashes of an element. */
  datatype Config = Config(size: nat, epochSize: nat, depthLimit: nat, hash: (nat, Element) -> nat)

  ghost predicate ConfigOk(cfg: Config) {
    2 <= cfg.size && 1 <= cfg.epochSize && 1 <= cfg.depthLimit
  }

  // ----- Locations -----

  const WORD: nat := 0x1_0000_0000

  /** A 32-bit fraction times the size. */
  function Loc(cfg: Config, e: Element, k: nat): (r: nat)
    requires cfg.size > 0
    ensures r < cfg.size
    // The cell whose share of the 32-bit range the hash falls into.
    ensures r * 0x1_0000_0000 <= (cfg.hash(k, e) % 0x1_0000_0000) * cfg.size < (r + 1) * 0x1_0000_0000
  {
    Scaled(cfg.hash(k, e) % WORD, cfg.size);
    (cfg.hash(k, e) % WORD) * cfg.size / WORD
  }

  lemma Scaled(h: nat, size: nat)
    requires h < WORD && size > 0
    ensures 0 <= h * size / WORD < size
  {
    MulMonotone(h, WORD - 1, size);
    MulMonotone(0, h, size);
  }

  function Locs(cfg: Config, e: Element): (r: seq<nat>)
    requires cfg.size > 0
    ensures |r| == 8 && forall k :: 0 <= k < 8 ==> r[k] < cfg.size
  {
    seq(8, k requires 0 <= k < 8 => Loc(cfg, e, k))
  }

  /** The first of the locations that holds `e`, or 8. */
  function Holding(cells: seq<Cell>, locs: seq<nat>, e: Element, k: nat): (r: nat)
    requires |locs| == 8 && k <= 8 && forall i :: 0 <= i < 8 ==> locs[i] < |cells|
    ensures k <= r <= 8 && (r < 8 ==> cells[locs[r]].element == e)
    ensures forall i :: k <= i < r ==> cells[locs[i]].element != e
    decreases 8 - k
  {
    if k == 8 || cells[locs[k]].element == e then k else Holding(cells, locs, e, k + 1)
  }

  /** The first of the locations that may be overwritten, or 8. */
  function Free(cells: seq<Cell>, locs: seq<nat>, k: nat): (r: nat)
    requires |locs| == 8 && k <= 8 && forall i :: 0 <= i < 8 ==> locs[i] < |cells|
    ensures k <= r <= 8 && (r < 8 ==> cells[locs[r]].collect)
    ensures forall i :: k <= i < r ==> !cells[locs[i]].collect
    decreases 8 - k
  {
    if k == 8 || cells[locs[k]].collect then k else Free(cells, locs, k + 1)
  }

  lemma FreeNext(cells: seq<Cell>, locs: seq<nat>, k: nat)
    requires |locs| == 8 && k < 8 && forall i :: 0 <= i < 8 ==> locs[i] < |cells|
    ensures Free(cells, locs, k) == if cells[locs[k]].collect then k else Free(cells, locs, k + 1)
  {
  }

  /** The position of a location among the eight, or 8. */
  function IndexOf(locs: seq<nat>, loc: int, k: nat): (r: nat)
    requires |locs| == 8 && k <= 8
    ensures k <= r <= 8
    decreases 8 - k
  {
    if k == 8 || locs[k] == loc then k else IndexOf(locs, loc, k + 1)
  }

  function NextLoc(locs: seq<nat>, last: int): nat
    requires |locs| == 8
  {
    locs[(1 + IndexOf(locs, last, 0)) % 8]
  }

  /** The first element swapped out is the one at the second location, not at the first as documented. */
  lemma FirstSwap(locs: seq<nat>)
    requires |locs| == 8
    ensures NextLoc(locs, -1) == locs[1]
  {
    NotAmong(locs, 0);
  }

  /** Afterwards it is the one after the location last swapped, around the eight. */
  lemma NextSwap(locs: seq<nat>, j: nat)
    requires |locs| == 8 && j < 8 && forall i :: 0 <= i < j ==> locs[i] != locs[j]
    ensures NextLoc(locs, locs[j]) == locs[if j == 7 then 0 else j + 1]
  {
    FirstIndex(locs, j, 0);
  }

  lemma {:induction false} FirstIndex(locs: seq<nat>, j: nat, k: nat)
    requires |locs| == 8 && k <= j < 8 && forall i :: 0 <= i < j ==> locs[i] != locs[j]
    ensures IndexOf(locs, locs[j], k) == j
    decreases j - k
  {
    if k < j {
      FirstIndex(locs, j, k + 1);
    }
  }

  lemma {:induction false} NotAmong(locs: seq<nat>, k: nat)
    requires |locs| == 8 && k <= 8
    ensures IndexOf(locs, -1, k) == 8
    decreases 8 - k
  {
    if k < 8 {
      NotAmong(locs, k + 1);
    }
  }

  // ----- The operations -----

  predicate Shaped(cfg: Config, cells: seq<Cell>) {
    0 < cfg.size == |cells|
  }

  /** Moves elements along until one finds room or the depth runs out. */
  function Place(cfg: Config, cells: seq<Cell>, e: Element, last: int, recent: bool, depth: nat): (r: seq<Cell>)
    requires Shaped(cfg, cells)
    ensures Shaped(cfg, r)
    decreases depth
  {
    if depth == 0 then cells else
      var locs := Locs(cfg, e);
      var k := Free(cells, locs, 0);
      if k < 8 then cells[locs[k] := Cell(e, false, recent)] else
        var loc := NextLoc(locs, last);
        var was := cells[loc];
        Place(cfg, cells[loc := Cell(e, was.collect, recent)], was.element, loc, was.recent, depth - 1)
  }

  lemma PlaceStep(cfg: Config, cells: seq<Cell>, e: Element, last: int, recent: bool, depth: nat)
    requires Shaped(cfg, cells) && depth > 0
    ensures NextLoc(Locs(cfg, e), last) < |cells|
    ensures var locs := Locs(cfg, e);
            var k := Free(cells, locs, 0);
            var loc := NextLoc(locs, last);
            var was := cells[loc];
            Place(cfg, cells, e, last, recent, depth) ==
            if k < 8 then cells[locs[k] := Cell(e, false, recent)]
            else Place(cfg, cells[loc := Cell(e, was.collect, recent)], was.element, loc, was.recent, depth - 1)
  {
    hide Locs, Free, IndexOf;
  }

  lemma PlaceEnd(cfg: Config, cells: seq<Cell>, e: Element, last: int, recent: bool)
    requires Shaped(cfg, cells)
    ensures Place(cfg, cells, e, last, recent, 0) == cells
  {
  }

  function Aged(cells: seq<Cell>): (r: seq<Cell>)
    ensures |r| == |cells|
  {
    seq(|cells|, i requires 0 <= i < |cells| =>
      if cells[i].recent then cells[i].(recent := false) else cells[i].(collect := true))
  }

  function EpochCheck(cfg: Config, s: State): State {
    if s.counter != 0 then s.(counter := s.counter - 1) else
      var unused := Tally(s.cells, Recent);
      if unused >= cfg.epochSize then State(Aged(s.cells), cfg.epochSize)
      else s.(counter := Max(1, Max(cfg.epochSize / 16, cfg.epochSize - unused)))
  }

  function Insert(cfg: Config, s: State, e: Element): State
    requires Shaped(cfg, s.cells)
  {
    var t := EpochCheck(cfg, s);
    var locs := Locs(cfg, e);
    var k := Holding(t.cells, locs, e, 0);
    if k < 8 then t.(cells := t.cells[locs[k] := Cell(e, false, true)])
    else t.(cells := Place(cfg, t.cells, e, -1, true, cfg.depthLimit))
  }

  predicate Contains(cfg: Config, s: State, e: Element)
    requires Shaped(cfg, s.cells)
  {
    Holding(s.cells, Locs(cfg, e), e, 0) < 8
  }

  function Lookup(cfg: Config, s: State, e: Element, erase: bool): State
    requires Shaped(cfg, s.cells)
  {
    var locs := Locs(cfg, e);
    var k := Holding(s.cells, locs, e, 0);
    if k < 8 && erase then s.(cells := s.cells[locs[k] := s.cells[locs[k]].(collect := true)]) else s
  }

  // ----- Counting cells -----

  datatype Kind = Recent | Live(element: Element) | Stored(element: Element)

  /** Current-epoch entries, unerased copies of an element, all its copies. */
  function Weigh(c: Cell, kind: Kind): nat {
    match kind
    case Recent => if c.recent && !c.collect then 1 else 0
    case Live(x) => if c.element == x && !c.collect then 1 else 0
    case Stored(x) => if c.element == x then 1 else 0
  }

  function Tally(cells: seq<Cell>, kind: Kind): nat {
    if cells == [] then 0 else Tally(cells[..|cells| - 1], kind) + Weigh(cells[|cells| - 1], kind)
  }

  lemma {:induction false} TallyUpdate(cells: seq<Cell>, i: nat, c: Cell, kind: Kind)
    requires i < |cells|
    ensures Tally(cells[i := c], kind) == Tally(cells, kind) - Weigh(cells[i], kind) + Weigh(c, kind)
    decreases |cells|
  {
    var n := |cells| - 1;
    if i == n {
      assert cells[i := c][..n] == cells[..n];
    } else {
      TallyUpdate(cells[..n], i, c, kind);
      assert cells[i := c][..n] == cells[..n][i := c];
    }
  }

  lemma {:induction false} TallySome(cells: seq<Cell>, kind: Kind) returns (i: nat)
    requires Tally(cells, kind) > 0
    ensures i < |cells| && Weigh(cells[i], kind) == 1
    decreases |cells|
  {
    i := |cells| - 1;
    if Weigh(cells[i], kind) == 0 {
      i := TallySome(cells[..i], kind);
    }
  }

  lemma {:induction false} AgedTally(cells: seq<Cell>, x: Element)
    ensures Tally(Aged(cells), Recent) == 0 && Tally(Aged(cells), Stored(x)) == Tally(cells, Stored(x))
    decreases |cells|
  {
    if cells != [] {
      var n := |cells| - 1;
      AgedTally(cells[..n], x);
      assert Aged(cells)[..n] == Aged(cells[..n]);
    }
  }

  // ----- The invariant -----

  /** Every cell holds an element in one of its own places, or is a blank never filled; no element is stored twice. */
  ghost predicate Sound(cfg: Config, cells: seq<Cell>) {
    && Shaped(cfg, cells)
    && (forall i :: 0 <= i < |cells| ==>
         i in Locs(cfg, cells[i].element) || (cells[i].collect && cells[i].element == BLANK))
    && (forall i, j :: 0 <= i < j < |cells| && cells[i].element == cells[j].element ==> cells[i].element == BLANK)
  }

  ghost predicate Absent(cells: seq<Cell>, e: Element) {
    forall i :: 0 <= i < |cells| ==> cells[i].element != e
  }

  /** An element none of whose places hold it is not in the table. */
  lemma NotHeldIsAbsent(cfg: Config, cells: seq<Cell>, e: Element)
    requires Sound(cfg, cells) && Holding(cells, Locs(cfg, e), e, 0) == 8
    ensures e == BLANK || Absent(cells, e)
  {
  }

  /** Putting an absent element into one of its places. */
  lemma PutSound(cfg: Config, cells: seq<Cell>, e: Element, loc: nat, c: Cell)
    requires Sound(cfg, cells) && (e == BLANK || Absent(cells, e)) && loc in Locs(cfg, e) && c.element == e
    ensures loc < |cells| && Sound(cfg, cells[loc := c])
    ensures cells[loc].element == BLANK || Absent(cells[loc := c], cells[loc].element)
  {
  }

  /** What one insertion does to the count of an element: `e` comes in, at most one other copy goes. */
  ghost predicate Traded(cells: seq<Cell>, r: seq<Cell>, e: Element, out: Element, dropped: bool) {
    && (forall x: Element ::
          Tally(r, Stored(x)) + (if x == out then 1 else 0) == Tally(cells, Stored(x)) + if x == e then 1 else 0)
    && (forall x: Element ::
          Tally(r, Live(x)) + (if dropped && x == out then 1 else 0) == Tally(cells, Live(x)) + if x == e then 1 else 0)
  }

  lemma TradedCell(cells: seq<Cell>, loc: nat, c: Cell, out: Element)
    requires loc < |cells| && !c.collect && out == cells[loc].element
    ensures Traded(cells, cells[loc := c], c.element, out, !cells[loc].collect)
  {
    forall x: Element
      ensures Tally(cells[loc := c], Stored(x)) + (if x == out then 1 else 0)
              == Tally(cells, Stored(x)) + if x == c.element then 1 else 0
    {
      TallyUpdate(cells, loc, c, Stored(x));
    }
    forall x: Element
      ensures Tally(cells[loc := c], Live(x)) + (if !cells[loc].collect && x == out then 1 else 0)
              == Tally(cells, Live(x)) + if x == c.element then 1 else 0
    {
      TallyUpdate(cells, loc, c, Live(x));
    }
  }

  lemma TradedTwice(a: seq<Cell>, b: seq<Cell>, c: seq<Cell>, e: Element, mid: Element, out: Element, dropped: bool)
    requires Traded(a, b, e, mid, true) && Traded(b, c, mid, out, dropped)
    ensures Traded(a, c, e, out, dropped)
  {
    hide Tally;
    forall x: Element
      ensures Tally(c, Stored(x)) + (if x == out then 1 else 0) == Tally(a, Stored(x)) + if x == e then 1 else 0
    {
      assert Tally(b, Stored(x)) + (if x == mid then 1 else 0) == Tally(a, Stored(x)) + if x == e then 1 else 0;
    }
    forall x: Element
      ensures Tally(c, Live(x)) + (if dropped && x == out then 1 else 0) == Tally(a, Live(x)) + if x == e then 1 else 0
    {
      assert Tally(b, Live(x)) + (if x == mid then 1 else 0) == Tally(a, Live(x)) + if x == e then 1 else 0;
    }
  }

  lemma InLocs(cfg: Config, e: Element, k: nat)
    requires cfg.size > 0 && k < 8
    ensures Locs(cfg, e)[k] in Locs(cfg, e)
  {
  }

  /** Placing keeps every element in a place of its own and trades at most one element away. */
  lemma {:induction false} PlaceOk(cfg: Config, cells: seq<Cell>, e: Element, last: int, recent: bool, depth: nat)
    returns (out: Element, dropped: bool)
    requires Sound(cfg, cells) && (e == BLANK || Absent(cells, e))
    ensures Sound(cfg, Place(cfg, cells, e, last, recent, depth))
    ensures Traded(cells, Place(cfg, cells, e, last, recent, depth), e, out, dropped)
    ensures Tally(Place(cfg, cells, e, last, recent, depth), Recent) <= Tally(cells, Recent) + if recent then 1 else 0
    ensures Shaped(cfg, cells) && depth > 0 && Free(cells, Locs(cfg, e), 0) < 8 ==> !dropped
    decreases depth
  {
    hide Sound, Traded, Absent, Locs, Tally, Place, Free, IndexOf;
    SoundShaped(cfg, cells);
    if depth == 0 {
      PlaceEnd(cfg, cells, e, last, recent);
      TradedNothing(cells, e);
      return e, true;
    }
    PlaceStep(cfg, cells, e, last, recent, depth);
    var locs := Locs(cfg, e);
    var k := Free(cells, locs, 0);
    var loc := if k < 8 then locs[k] else NextLoc(locs, last);
    InLocs(cfg, e, if k < 8 then k else (1 + IndexOf(locs, last, 0)) % 8);
    var c := Cell(e, false, recent);
    PutSound(cfg, cells, e, loc, c);
    TradedCell(cells, loc, c, cells[loc].element);
    TallyUpdate(cells, loc, c, Recent);
    if k < 8 {
      return cells[loc].element, false;
    }
    assert cells[loc].collect == false;
    out, dropped := PlaceOk(cfg, cells[loc := c], cells[loc].element, loc, cells[loc].recent, depth - 1);
    TradedTwice(cells, cells[loc := c], Place(cfg, cells, e, last, recent, depth), e, cells[loc].element, out, dropped);
  }

  lemma TradedNothing(cells: seq<Cell>, e: Element)
    ensures Traded(cells, cells, e, e, true)
  {
  }

  lemma SoundShaped(cfg: Config, cells: seq<Cell>)
    requires Sound(cfg, cells)
    ensures Shaped(cfg, cells)
  {
  }

  /** Ageing only changes flags. */
  lemma AgedOk(cfg: Config, cells: seq<Cell>)
    requires Sound(cfg, cells)
    ensures Sound(cfg, Aged(cells))
  {
    hide Locs;
  }

  /** The bound on the current epoch that the heuristic counter keeps. */
  ghost predicate Bounded(cfg: Config, s: State) {
    Tally(s.cells, Recent) + s.counter <= cfg.epochSize + Max(1, cfg.epochSize / 16)
  }

  lemma EpochCheckOk(cfg: Config, s: State)
    requires ConfigOk(cfg) && Sound(cfg, s.cells) && Bounded(cfg, s)
    ensures var t := EpochCheck(cfg, s);
            && Sound(cfg, t.cells) && Tally(t.cells, Recent) + t.counter < cfg.epochSize + Max(1, cfg.epochSize / 16)
            && (forall x: Element :: Tally(t.cells, Stored(x)) == Tally(s.cells, Stored(x)))
            && |t.cells| == |s.cells| && (forall i :: 0 <= i < |s.cells| ==> t.cells[i].element == s.cells[i].element)
            && (forall i :: 0 <= i < |s.cells| && s.cells[i].recent ==> t.cells[i].collect == s.cells[i].collect)
            && (s.counter > 0 ==> t == State(s.cells, s.counter - 1))
            && (s.counter == 0 && Tally(s.cells, Recent) >= cfg.epochSize ==>
                 && t.counter == cfg.epochSize
                 && forall i :: 0 <= i < |s.cells| ==>
                      !t.cells[i].recent && (t.cells[i].collect <==> s.cells[i].collect || !s.cells[i].recent))
            && (s.counter == 0 && Tally(s.cells, Recent) < cfg.epochSize ==>
                 var missing := cfg.epochSize - Tally(s.cells, Recent);
                 && t.cells == s.cells && 1 <= t.counter && cfg.epochSize / 16 <= t.counter && missing <= t.counter
                 && (t.counter == 1 || t.counter == cfg.epochSize / 16 || t.counter == missing))
  {
    hide Sound, Tally;
    AgedOk(cfg, s.cells);
    AgedTally(s.cells, 0);
    forall x: Element
      ensures Tally(Aged(s.cells), Stored(x)) == Tally(s.cells, Stored(x))
    {
      AgedTally(s.cells, x);
    }
  }

  /** The whole of an insertion: what was checked before, what is traded, what is bounded. */
  lemma InsertOk(cfg: Config, s: State, e: Element) returns (out: Element, dropped: bool)
    requires ConfigOk(cfg) && Sound(cfg, s.cells) && Bounded(cfg, s)
    ensures var t, r := EpochCheck(cfg, s), Insert(cfg, s, e);
            && Sound(cfg, r.cells) && Bounded(cfg, r)
            && Shaped(cfg, t.cells)
            && (if Contains(cfg, t, e) then forall x: Element :: Tally(r.cells, Stored(x)) == Tally(t.cells, Stored(x))
                else Traded(t.cells, r.cells, e, out, dropped) && (Free(t.cells, Locs(cfg, e), 0) < 8 ==> !dropped))
            && (Contains(cfg, t, e) || out != e || !dropped ==>
                  Contains(cfg, r, e) && (e != BLANK ==> Tally(r.cells, Live(e)) > 0))
  {
    hide Sound, Tally, Locs, Absent, Traded;
    EpochCheckOk(cfg, s);
    var t := EpochCheck(cfg, s);
    SoundShaped(cfg, t.cells);
    var locs := Locs(cfg, e);
    var k := Holding(t.cells, locs, e, 0);
    if k < 8 {
      KeepOk(cfg, t.cells, e, k);
      TallyUpdate(t.cells, locs[k], Cell(e, false, true), Recent);
      TallyUpdate(t.cells, locs[k], Cell(e, false, true), Live(e));
      TallyUpdate(t.cells, locs[k], Cell(e, true, true), Live(e));
      out, dropped := e, false;
    } else {
      NotHeldIsAbsent(cfg, t.cells, e);
      out, dropped := PlaceOk(cfg, t.cells, e, -1, true, cfg.depthLimit);
      FoundAfter(cfg, t.cells, Insert(cfg, s, e), e, out, dropped);
    }
  }

  /** With room for one move only, a new element that finds no free place replaces the one at its second place. */
  lemma FirstVictim(cfg: Config, s: State, e: Element)
    requires Shaped(cfg, s.cells) && cfg.depthLimit == 1 && s.counter > 0
    requires !Contains(cfg, s, e) && Free(s.cells, Locs(cfg, e), 0) == 8
    ensures Insert(cfg, s, e) == State(s.cells[Locs(cfg, e)[1] := Cell(e, false, true)], s.counter - 1)
  {
    hide Locs, Free, Holding, IndexOf, Place;
    var locs := Locs(cfg, e);
    FirstSwap(locs);
    PlaceStep(cfg, s.cells, e, -1, true, 1);
    var next := s.cells[locs[1] := Cell(e, s.cells[locs[1]].collect, true)];
    PlaceEnd(cfg, next, s.cells[locs[1]].element, locs[1], s.cells[locs[1]].recent);
  }

  /** Every copy of an element is of the current epoch, or every copy is of an older one. */
  ghost predicate Flagged(cells: seq<Cell>, x: Element, recent: bool) {
    forall i :: 0 <= i < |cells| && cells[i].element == x ==> cells[i].recent == recent
  }

  /** The epoch flags travel with the elements that are moved along. */
  lemma {:induction false} PlaceFlags(cfg: Config, cells: seq<Cell>, e: Element, last: int, recent: bool, depth: nat,
                                      x: Element, b: bool)
    requires Shaped(cfg, cells) && Flagged(cells, x, b) && (x == e ==> b == recent)
    ensures Flagged(Place(cfg, cells, e, last, recent, depth), x, b)
    decreases depth
  {
    hide Locs, Place, Free, IndexOf;
    if depth == 0 {
      PlaceEnd(cfg, cells, e, last, recent);
    } else {
      PlaceStep(cfg, cells, e, last, recent, depth);
      var locs := Locs(cfg, e);
      if Free(cells, locs, 0) == 8 {
        var loc := NextLoc(locs, last);
        var next := cells[loc := Cell(e, cells[loc].collect, recent)];
        PlaceFlags(cfg, next, cells[loc].element, loc, cells[loc].recent, depth - 1, x, b);
      }
    }
  }

  lemma PlacedFlags(cfg: Config, cells: seq<Cell>, e: Element)
    requires Shaped(cfg, cells) && (e == BLANK || Absent(cells, e))
    ensures var r := Place(cfg, cells, e, -1, true, cfg.depthLimit);
            && (e != BLANK ==> Flagged(r, e, true))
            && (forall x: Element, b: bool :: x != e && Flagged(cells, x, b) ==> Flagged(r, x, b))
  {
    var r := Place(cfg, cells, e, -1, true, cfg.depthLimit);
    if e != BLANK {
      PlaceFlags(cfg, cells, e, -1, true, cfg.depthLimit, e, true);
    }
    forall x: Element, b: bool | x != e && Flagged(cells, x, b)
      ensures Flagged(r, x, b)
    {
      PlaceFlags(cfg, cells, e, -1, true, cfg.depthLimit, x, b);
    }
  }

  lemma KeepFlags(cfg: Config, cells: seq<Cell>, e: Element, k: nat)
    requires Sound(cfg, cells) && k < 8 && cells[Locs(cfg, e)[k]].element == e
    ensures var r := cells[Locs(cfg, e)[k] := Cell(e, false, true)];
            && (e != BLANK ==> Flagged(r, e, true))
            && (forall x: Element, b: bool :: x != e && Flagged(cells, x, b) ==> Flagged(r, x, b))
  {
    hide Locs;
    var r := cells[Locs(cfg, e)[k] := Cell(e, false, true)];
    forall x: Element, b: bool | x != e && Flagged(cells, x, b)
      ensures Flagged(r, x, b)
    {
    }
  }

  lemma KeepOk(cfg: Config, cells: seq<Cell>, e: Element, k: nat)
    requires Sound(cfg, cells) && k < 8 && cells[Locs(cfg, e)[k]].element == e
    ensures var r := cells[Locs(cfg, e)[k] := Cell(e, false, true)];
            && Sound(cfg, r) && (forall x: Element :: Tally(r, Stored(x)) == Tally(cells, Stored(x)))
            && Holding(r, Locs(cfg, e), e, 0) < 8
  {
    hide Tally;
    var loc := Locs(cfg, e)[k];
    InLocs(cfg, e, k);
    forall x: Element
      ensures Tally(cells[loc := Cell(e, false, true)], Stored(x)) == Tally(cells, Stored(x))
    {
      TallyUpdate(cells, loc, Cell(e, false, true), Stored(x));
    }
  }

  /** An element that was not dropped is found. */
  lemma FoundAfter(cfg: Config, cells: seq<Cell>, r: State, e: Element, out: Element, dropped: bool)
    requires Sound(cfg, r.cells) && Traded(cells, r.cells, e, out, dropped) && Shaped(cfg, r.cells)
    ensures out != e || !dropped ==> Contains(cfg, r, e) && Tally(r.cells, Live(e)) > 0
  {
    hide Tally;
    assert Tally(r.cells, Live(e)) + (if dropped && e == out then 1 else 0) == Tally(cells, Live(e)) + 1;
    if out != e || !dropped {
      var i := TallySome(r.cells, Live(e));
      var k :| 0 <= k < 8 && Locs(cfg, e)[k] == i;
    }
  }

  /** An inserted element is of the current epoch; every other keeps the epoch it had after the epoch check. */
  lemma InsertMarks(cfg: Config, s: State, e: Element)
    requires ConfigOk(cfg) && Sound(cfg, s.cells) && Bounded(cfg, s)
    ensures var t, r := EpochCheck(cfg, s), Insert(cfg, s, e);
            && (e != BLANK ==> Flagged(r.cells, e, true))
            && (forall x: Element, b: bool :: x != e && Flagged(t.cells, x, b) ==> Flagged(r.cells, x, b))
  {
    hide Sound, Tally, Locs, Absent, Flagged, EpochCheck;
    EpochCheckOk(cfg, s);
    var t := EpochCheck(cfg, s);
    SoundShaped(cfg, t.cells);
    var k := Holding(t.cells, Locs(cfg, e), e, 0);
    if k < 8 {
      KeepFlags(cfg, t.cells, e, k);
    } else {
      NotHeldIsAbsent(cfg, t.cells, e);
      PlacedFlags(cfg, t.cells, e);
    }
  }

  /** `r` is `s` with the collection flag of one cell set: one of the places of `e`, which holds it. */
  ghost predicate Erased(cfg: Config, s: State, r: State, e: Element)
    requires Shaped(cfg, s.cells)
  {
    exists k :: 0 <= k < 8 &&
      var loc := Locs(cfg, e)[k];
      s.cells[loc].element == e && r == s.(cells := s.cells[loc := s.cells[loc].(collect := true)])
  }

  /**
   * Erasing sets one collection flag, and only then and only if the element is there; it allows a later overwrite,
   * but the element is still found.
   */
  lemma LookupOk(cfg: Config, s: State, e: Element, erase: bool, x: Element)
    requires Sound(cfg, s.cells) && Bounded(cfg, s)
    ensures var r := Lookup(cfg, s, e, erase);
            && Sound(cfg, r.cells) && Bounded(cfg, r)
            && Tally(r.cells, Stored(x)) == Tally(s.cells, Stored(x))
            && (Contains(cfg, r, x) <==> Contains(cfg, s, x))
            && (!erase || !Contains(cfg, s, e) ==> r == s)
            && (erase && Contains(cfg, s, e) ==>
                  Erased(cfg, s, r, e) && (e != BLANK ==> Tally(r.cells, Live(e)) == 0))
            && (x != e ==> Tally(r.cells, Live(x)) == Tally(s.cells, Live(x)))
            && r.counter == s.counter && |r.cells| == |s.cells|
            && (forall i :: 0 <= i < |s.cells| ==> r.cells[i].recent == s.cells[i].recent)
  {
    hide Tally, Sound, Locs, Holding;
    SoundShaped(cfg, s.cells);
    var locs := Locs(cfg, e);
    var k := Holding(s.cells, locs, e, 0);
    if k < 8 && erase {
      var c := s.cells[locs[k]].(collect := true);
      EraseSound(cfg, s.cells, locs[k]);
      TallyUpdate(s.cells, locs[k], c, Recent);
      TallyUpdate(s.cells, locs[k], c, Stored(x));
      TallyUpdate(s.cells, locs[k], c, Live(x));
      SameElements(s.cells, s.cells[locs[k] := c], Locs(cfg, x), x, 0);
      assert Erased(cfg, s, Lookup(cfg, s, e, erase), e);
      if e != BLANK {
        ErasedIsDead(cfg, s.cells, locs[k], e);
      }
    }
  }

  /** The only copy of an element is erased. */
  lemma ErasedIsDead(cfg: Config, cells: seq<Cell>, loc: nat, e: Element)
    requires Sound(cfg, cells) && loc < |cells| && cells[loc].element == e != BLANK
    ensures Tally(cells[loc := cells[loc].(collect := true)], Live(e)) == 0
  {
    hide Locs;
    var r := cells[loc := cells[loc].(collect := true)];
    forall i | 0 <= i < |r|
      ensures Weigh(r[i], Live(e)) == 0
    {
    }
    TallyNone(r, Live(e));
  }

  lemma {:induction false} TallyNone(cells: seq<Cell>, kind: Kind)
    requires forall i :: 0 <= i < |cells| ==> Weigh(cells[i], kind) == 0
    ensures Tally(cells, kind) == 0
    decreases |cells|
  {
    if cells != [] {
      TallyNone(cells[..|cells| - 1], kind);
    }
  }

  lemma EraseSound(cfg: Config, cells: seq<Cell>, loc: nat)
    requires Sound(cfg, cells) && loc < |cells|
    ensures Sound(cfg, cells[loc := cells[loc].(collect := true)])
  {
    hide Locs;
  }

  lemma {:induction false} SameElements(a: seq<Cell>, b: seq<Cell>, locs: seq<nat>, e: Element, k: nat)
    requires |locs| == 8 && k <= 8 && |a| == |b| && forall i :: 0 <= i < 8 ==> locs[i] < |a|
    requires forall i :: 0 <= i < |a| ==> a[i].element == b[i].element
    ensures Holding(a, locs, e, k) == Holding(b, locs, e, k)
    decreases 8 - k
  {
    if k < 8 {
      SameElements(a, b, locs, e, k + 1);
    }
  }

  // ----- Runs -----

  datatype Op = InsertOp(e: Element) | LookupOp(e: Element, erase: bool)

  function Setup(cfg: Config): State {
    State(seq(cfg.size, _ => Cell(BLANK, true, false)), cfg.epochSize)
  }

  function Apply(cfg: Config, s: State, op: Op): State
    requires Shaped(cfg, s.cells)
  {
    match op
    case InsertOp(e) => Insert(cfg, s, e)
    case LookupOp(e, erase) => Lookup(cfg, s, e, erase)
  }

  function Run(cfg: Config, s: State, ops: seq<Op>): (r: State)
    requires Shaped(cfg, s.cells)
    ensures Shaped(cfg, r.cells)
    decreases |ops|
  {
    if ops == [] then s else Run(cfg, Apply(cfg, s, ops[0]), ops[1..])
  }

  lemma SetupOk(cfg: Config)
    requires ConfigOk(cfg)
    ensures Sound(cfg, Setup(cfg).cells) && Bounded(cfg, Setup(cfg))
    ensures |Setup(cfg).cells| == cfg.size && Setup(cfg).counter == cfg.epochSize
    ensures forall i :: 0 <= i < cfg.size ==> Setup(cfg).cells[i] == Cell(0, true, false)
  {
    NoneRecent(Setup(cfg).cells);
  }

  lemma {:induction false} NoneRecent(cells: seq<Cell>)
    requires forall i :: 0 <= i < |cells| ==> cells[i].collect
    ensures Tally(cells, Recent) == 0
    decreases |cells|
  {
    if cells != [] {
      NoneRecent(cells[..|cells| - 1]);
    }
  }

  /** After any run, every element is in a place of its own, once, and the current epoch is bounded. */
  lemma {:induction false} RunOk(cfg: Config, s: State, ops: seq<Op>)
    requires ConfigOk(cfg) && Sound(cfg, s.cells) && Bounded(cfg, s)
    ensures Sound(cfg, Run(cfg, s, ops).cells) && Bounded(cfg, Run(cfg, s, ops))
    decreases |ops|
  {
    hide Sound, Bounded, Insert, Lookup;
    SoundShaped(cfg, s.cells);
    if ops != [] {
      match ops[0] {
        case InsertOp(e) => var out, dropped := InsertOk(cfg, s, e);
        case LookupOp(e, erase) => LookupOk(cfg, s, e, erase, e);
      }
      RunOk(cfg, Apply(cfg, s, ops[0]), ops[1..]);
    }
  }
}
