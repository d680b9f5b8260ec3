/** The cuckoo cache in place: bit-packed collection flags, and the table that insert and contains update. */
module CuckooCache {
  import opened BitOps
  import opened Cuckoo
  import opened Numbers

  /** Sizes are 32-bit numbers. */
  const UINT32_MODULUS: nat := 0x1_0000_0000

  function EpochSize(size: nat): (r: nat)
    ensures r >= 1
  {
    Max(1, 45 * size % UINT32_MODULUS / 100)
  }

  /** Up to 95,443,717 entries the product does not wrap, and an epoch is 45 percent of the table. */
  lemma EpochIsShare(size: nat)
    requires size < UINT32_MODULUS
    ensures EpochSize(size) == Max(1, 45 * size / 100) <==> size <= 95443717
  {
  }

  /** The rounded-up number of flag bytes wraps for the seven largest sizes, and then no entry has a flag. */
  lemma FlagsSuffice(size: nat)
    requires size < UINT32_MODULUS
    ensures size <= 8 * ((size + 7) % UINT32_MODULUS / 8) <==> size + 7 < UINT32_MODULUS
    ensures size + 7 >= UINT32_MODULUS ==> (size + 7) % UINT32_MODULUS / 8 == 0
  {
  }

  class BitPackedFlags {
    const mem: array<nat>

    ghost predicate Set(s: nat)
      requires s / 8 < mem.Length
      reads mem
    {
      Bit(mem[s / 8], s % 8)
    }

    /** All entries up to `size` are marked as collected. */
    constructor (size: nat)
      requires size < UINT32_MODULUS
      ensures mem.Length == (size + 7) % UINT32_MODULUS / 8 && fresh(mem)
      ensures forall s :: 0 <= s < 8 * mem.Length ==> Set(s)
    {
      var a := new nat[(size + 7) % UINT32_MODULUS / 8];
      for i := 0 to a.Length
        invariant forall j :: 0 <= j < i ==> a[j] == 0xFF
      {
        a[i] := 0xFF;
      }
      mem := a;
      new;
      forall s | 0 <= s < 8 * mem.Length
        ensures Set(s)
      {
        Pow2Values();
        AllOnes(8, s % 8);
      }
    }

    method BitSet(s: nat)
      requires s / 8 < mem.Length
      modifies mem
      ensures forall q :: 0 <= q < 8 * mem.Length ==> (Set(q) <==> q == s || old(Set(q)))
    {
      ghost var b := mem[s / 8];
      mem[s / 8] := SetBit(mem[s / 8], s % 8);
      forall q | 0 <= q < 8 * mem.Length
        ensures Set(q) <==> q == s || old(Set(q))
      {
        SetBitAt(b, s % 8, q % 8);
        assert q == 8 * (q / 8) + q % 8 && s == 8 * (s / 8) + s % 8;
      }
    }

    method BitUnset(s: nat)
      requires s / 8 < mem.Length
      modifies mem
      ensures forall q :: 0 <= q < 8 * mem.Length ==> (Set(q) <==> q != s && old(Set(q)))
    {
      ghost var b := mem[s / 8];
      mem[s / 8] := ClearBit(mem[s / 8], s % 8);
      forall q | 0 <= q < 8 * mem.Length
        ensures Set(q) <==> q != s && old(Set(q))
      {
        ClearBitAt(b, s % 8, q % 8);
        assert q == 8 * (q / 8) + q % 8 && s == 8 * (s / 8) + s % 8;
      }
    }

    method BitIsSet(s: nat) returns (r: bool)
      requires s / 8 < mem.Length
      ensures r == Set(s)
    {
      r := Bit(mem[s / 8], s % 8);
    }
  }

  class Cache {
    const cfg: Config
    const table: array<Element>
    const collection_flags: BitPackedFlags
    const epoch_flags: array<bool>
    var epoch_heuristic_counter: nat

    ghost predicate Shaped()
    {
      && 0 < cfg.size == table.Length == epoch_flags.Length
      && collection_flags.mem.Length == (cfg.size + 7) / 8 && collection_flags.mem != table
    }

    ghost function CellAt(i: nat): Cell
      requires Shaped() && i < cfg.size
      reads table, epoch_flags, collection_flags.mem
    {
      Cell(table[i], collection_flags.Set(i), epoch_flags[i])
    }

    ghost function Cells(): (r: seq<Cell>)
      requires Shaped()
      reads table, epoch_flags, collection_flags.mem
      ensures |r| == cfg.size && forall i :: 0 <= i < cfg.size ==> r[i] == CellAt(i)
    {
      seq(cfg.size, i requires 0 <= i < cfg.size reads table, epoch_flags, collection_flags.mem => CellAt(i))
    }

    ghost function Abs(): State
      requires Shaped()
      reads this, table, epoch_flags, collection_flags.mem
    {
      State(Cells(), epoch_heuristic_counter)
    }

    /**
     * `setup`: the depth limit, a logarithm, comes with the configuration. For the seven largest sizes there are no
     * flags at all; for every other one the cache starts out empty.
     */
    constructor (new_size: nat, depthLimit: nat, hash: (nat, Element) -> nat)
      requires depthLimit >= 1 && new_size < UINT32_MODULUS
      ensures fresh(table) && fresh(epoch_flags) && fresh(collection_flags.mem)
      ensures cfg == Config(Max(2, new_size), EpochSize(Max(2, new_size)), depthLimit, hash) && ConfigOk(cfg)
      ensures Shaped() <==> new_size + 7 < UINT32_MODULUS
      ensures Shaped() ==> Abs() == Setup(cfg)
    {
      var size := Max(2, new_size);
      cfg := Config(size, EpochSize(size), depthLimit, hash);
      table := new Element[size](_ => BLANK);
      collection_flags := new BitPackedFlags(size);
      epoch_flags := new bool[size](_ => false);
      epoch_heuristic_counter := EpochSize(size);
      new;
      FlagsSuffice(size);
      assert Shaped() ==> Cells() == Setup(cfg).cells;
    }

    method Keep(loc: nat, recent: bool)
      requires Shaped() && loc < cfg.size
      modifies epoch_flags, collection_flags.mem
      ensures Cells() == old(Cells())[loc := Cell(table[loc], false, recent)]
    {
      collection_flags.BitUnset(loc);
      epoch_flags[loc] := recent;
    }

    method FindHolding(locs: seq<nat>, e: Element) returns (k: nat)
      requires Shaped() && |locs| == 8 && forall i :: 0 <= i < 8 ==> locs[i] < cfg.size
      ensures k == Holding(Cells(), locs, e, 0)
    {
      ghost var cells := Cells();
      k := 0;
      while k < 8 && table[locs[k]] != e
        invariant k <= 8 && Holding(cells, locs, e, k) == Holding(cells, locs, e, 0)
      {
        assert cells[locs[k]] == CellAt(locs[k]);
        k := k + 1;
      }
    }

    method FindFree(locs: seq<nat>) returns (k: nat)
      requires Shaped() && |locs| == 8 && forall i :: 0 <= i < 8 ==> locs[i] < cfg.size
      ensures k == Free(Cells(), locs, 0)
    {
      hide Free, Bit;
      ghost var cells := Cells();
      k := 0;
      while k < 8
        invariant k <= 8 && Free(cells, locs, k) == Free(cells, locs, 0)
      {
        FreeNext(cells, locs, k);
        assert cells[locs[k]] == CellAt(locs[k]);
        var set_ := collection_flags.BitIsSet(locs[k]);
        if set_ {
          return;
        }
        k := k + 1;
      }
    }

    method EpochCheck()
      requires Shaped()
      modifies this, epoch_flags, collection_flags.mem
      ensures Abs() == Cuckoo.EpochCheck(cfg, old(Abs()))
    {
      if epoch_heuristic_counter != 0 {
        epoch_heuristic_counter := epoch_heuristic_counter - 1;
        assert Cells() == old(Cells());
        return;
      }
      var epoch_unused_count := CountUnused();
      if epoch_unused_count >= cfg.epochSize {
        Age();
        epoch_heuristic_counter := cfg.epochSize;
      } else {
        epoch_heuristic_counter := Max(1, Max(cfg.epochSize / 16, cfg.epochSize - epoch_unused_count));
      }
    }

    method CountUnused() returns (n: nat)
      requires Shaped()
      ensures n == Tally(Cells(), Recent)
    {
      n := 0;
      for i := 0 to cfg.size
        invariant n == Tally(Cells()[..i], Recent)
      {
        var erased := collection_flags.BitIsSet(i);
        if epoch_flags[i] && !erased {
          n := n + 1;
        }
        assert Cells()[..i + 1][..i] == Cells()[..i];
      }
      assert Cells()[..cfg.size] == Cells();
    }

    method Age()
      requires Shaped()
      modifies epoch_flags, collection_flags.mem
      ensures Cells() == Aged(old(Cells()))
    {
      ghost var was := Cells();
      for i := 0 to cfg.size
        invariant forall j :: 0 <= j < cfg.size ==> CellAt(j) == if j < i then Aged(was)[j] else was[j]
      {
        if epoch_flags[i] {
          epoch_flags[i] := false;
        } else {
          collection_flags.BitSet(i);
        }
      }
    }

    /** Takes the element's place if it is there, else moves elements along to make room. */
    method Insert(e: Element)
      requires Shaped()
      modifies this, table, epoch_flags, collection_flags.mem
      ensures Abs() == Cuckoo.Insert(cfg, old(Abs()), e)
    {
      hide Locs, Place, Cuckoo.EpochCheck, Holding;
      EpochCheck();
      var locs := Locs(cfg, e);
      var k := FindHolding(locs, e);
      if k < 8 {
        Keep(locs[k], true);
      } else {
        PlaceElement(e);
      }
    }

    method PlaceElement(start: Element)
      requires Shaped()
      modifies table, epoch_flags, collection_flags.mem
      ensures Cells() == Place(cfg, old(Cells()), start, -1, true, cfg.depthLimit)
    {
      hide Locs, Free, NextLoc, Place;
      var e, last_loc, last_epoch := start, -1, true;
      var depth := 0;
      while depth < cfg.depthLimit
        invariant depth <= cfg.depthLimit
        invariant Place(cfg, Cells(), e, last_loc, last_epoch, cfg.depthLimit - depth)
                    == Place(cfg, old(Cells()), start, -1, true, cfg.depthLimit)
      {
        var locs := Locs(cfg, e);
        var k := FindFree(locs);
        ghost var was := Cells();
        PlaceStep(cfg, was, e, last_loc, last_epoch, cfg.depthLimit - depth);
        if k < 8 {
          table[locs[k]] := e;
          Keep(locs[k], last_epoch);
          assert Cells() == was[locs[k] := Cell(e, false, last_epoch)];
          return;
        }
        last_loc := NextLoc(locs, last_loc);
        var evicted, epoch := table[last_loc], epoch_flags[last_loc];
        table[last_loc] := e;
        epoch_flags[last_loc] := last_epoch;
        assert Cells() == was[last_loc := Cell(e, was[last_loc].collect, last_epoch)];
        e, last_epoch := evicted, epoch;
        depth := depth + 1;
      }
      PlaceEnd(cfg, Cells(), e, last_loc, last_epoch);
    }

    method Contains(e: Element, erase: bool) returns (r: bool)
      requires Shaped()
      modifies collection_flags.mem
      ensures r == Cuckoo.Contains(cfg, old(Abs()), e) && Abs() == Lookup(cfg, old(Abs()), e, erase)
    {
      hide Locs, Holding;
      var locs := Locs(cfg, e);
      var k := FindHolding(locs, e);
      ghost var was := Cells();
      if k < 8 && erase {
        collection_flags.BitSet(locs[k]);
        assert Cells() == was[locs[k] := was[locs[k]].(collect := true)];
      }
      r := k < 8;
    }
  }
}
