/** The rolling filter over its array of word pairs. */
module RollingFilter {
  import opened BitPlanes
  import opened RollingBloom

  /** The generation numbers held by the words. */
  ghost function GridOf(data: seq<word>, pairs: nat): (g: Grid)
    requires |data| == 2 * pairs
    ensures forall p: Position :: p in g <==> p.0 < pairs
    ensures forall p: Position | p.0 < pairs :: g[p] == Generation(data[2 * p.0], data[2 * p.0 + 1], p.1)
  {
    imap p: Position | p.0 < pairs :: Generation(data[2 * p.0], data[2 * p.0 + 1], p.1)
  }

  // ----- wiping, pair by pair

  ghost predicate Wiping(was: seq<word>, now: seq<word>, g: nat, q: nat) {
    && |now| == |was| && |was| % 2 == 0 && 2 * q <= |was|
    && (forall w: nat | w < q ::
          && now[2 * w] == Both(was[2 * w], Keep(was[2 * w], was[2 * w + 1], g))
          && now[2 * w + 1] == Both(was[2 * w + 1], Keep(was[2 * w], was[2 * w + 1], g)))
    && (forall i | 2 * q <= i < |was| :: now[i] == was[i])
  }

  lemma WipeStart(was: seq<word>, g: nat)
    requires |was| % 2 == 0
    ensures Wiping(was, was, g, 0)
  {}

  lemma WipeStep(was: seq<word>, now: seq<word>, g: nat, q: nat)
    requires Wiping(was, now, g, q) && 2 * q + 1 < |was|
    ensures var mask := Keep(now[2 * q], now[2 * q + 1], g);
            Wiping(was, now[2 * q := Both(now[2 * q], mask)][2 * q + 1 := Both(now[2 * q + 1], mask)], g, q + 1)
  {
    hide Keep, Both;
  }

  lemma WipeDone(was: seq<word>, now: seq<word>, g: nat, pairs: nat)
    requires |was| == 2 * pairs && Wiping(was, now, g, pairs) && 1 <= g <= 3
    ensures GridOf(now, pairs) == Wiped(GridOf(was, pairs), g)
  {
    hide Generation, Keep, Both;
    var before, after := GridOf(was, pairs), GridOf(now, pairs);
    forall p: Position | p.0 < pairs
      ensures after[p] == if before[p] == g then 0 else before[p]
    {
      WipeGeneration(was[2 * p.0], was[2 * p.0 + 1], g, p.1);
    }
  }

  // ----- marking one position

  lemma MarkOne(was: seq<word>, now: seq<word>, pairs: nat, p: Position, g: nat)
    requires |was| == |now| == 2 * pairs && p.0 < pairs && g <= 3
    requires now == was[2 * p.0 := Put(was[2 * p.0], p.1, LowBit(g))]
                       [2 * p.0 + 1 := Put(was[2 * p.0 + 1], p.1, HighBit(g))]
    ensures GridOf(now, pairs) == GridOf(was, pairs)[p := g]
  {
    hide Generation, Put, LowBit, HighBit, GridOf;
    var before, after := GridOf(was, pairs), GridOf(now, pairs);
    forall q: Position | q.0 < pairs
      ensures after[q] == before[p := g][q]
    {
      MarkCell(was, now, pairs, p, g, q);
    }
    assert after == before[p := g];
  }

  lemma MarkCell(was: seq<word>, now: seq<word>, pairs: nat, p: Position, g: nat, q: Position)
    requires |was| == |now| == 2 * pairs && p.0 < pairs && q.0 < pairs && g <= 3
    requires now == was[2 * p.0 := Put(was[2 * p.0], p.1, LowBit(g))]
                       [2 * p.0 + 1 := Put(was[2 * p.0 + 1], p.1, HighBit(g))]
    ensures Generation(now[2 * q.0], now[2 * q.0 + 1], q.1)
            == if q == p then g else Generation(was[2 * q.0], was[2 * q.0 + 1], q.1)
  {
    hide Generation, Put, LowBit, HighBit;
    if p.0 == q.0 { PutGeneration(was[2 * p.0], was[2 * p.0 + 1], p.1, g, q.1); }
  }

  class RollingBloomFilter {
    const config: Config
    const elements: nat
    const data: array<word>
    var entriesThisGeneration: nat
    var generation: nat
    var tweak: bv32
    ghost var history: seq<Key>

    ghost predicate Shaped() {
      && Sized(config) && data.Length == 2 * config.pairs && config.perGeneration == (elements + 1) / 2
    }

    ghost function View(): Filter
      requires Shaped()
      reads this`generation, this`entriesThisGeneration, this`tweak, data
    {
      Filter(GridOf(data[..], config.pairs), generation, entriesThisGeneration, tweak)
    }

    ghost predicate Valid()
      reads this, data
    {
      Shaped() && Recorded(config, View(), history) && Justified(config, View(), history)
    }

    constructor (elements: nat, hashFuncs: nat, pairs: nat, hash: (nat, bv32, Key) -> bv32, tweak: bv32)
      requires elements >= 1 && pairs >= 1
      ensures Valid() && Fresh(config, View(), elements) && history == [] && this.elements == elements
      ensures fresh(data)
    {
      this.elements := elements;
      config := Config(pairs, hashFuncs, (elements + 1) / 2, hash);
      data := new word[2 * pairs];
      new;
      Reset(tweak);
    }

    method Reset(newTweak: bv32)
      requires Shaped()
      modifies this, data
      ensures Valid() && Fresh(config, View(), elements) && history == [] && tweak == newTweak
    {
      tweak := newTweak;
      entriesThisGeneration := 0;
      generation := 1;
      for i := 0 to data.Length
        invariant forall k | 0 <= k < i :: data[k] == 0
        invariant tweak == newTweak && entriesThisGeneration == 0 && generation == 1
      {
        data[i] := 0;
      }
      history := [];
      hide Recorded, Justified, Generation;
      AllUnset(data[..], config.pairs);
      NothingRecorded(config, View());
      NothingJustified(config, View(), elements);
    }

    /** Starts a new generation when the current one is full. */
    method Roll()
      requires Shaped() && 1 <= generation <= 3
      modifies this`entriesThisGeneration, this`generation, data
      ensures View() == Rolled(config, old(View()))
    {
      if entriesThisGeneration == config.perGeneration {
        entriesThisGeneration := 0;
        generation := generation + 1;
        if generation == 4 {
          generation := 1;
        }
        Wipe();
      }
    }

    /** Unsets the positions that hold the current generation number. */
    method Wipe()
      requires Shaped() && 1 <= generation <= 3
      modifies data
      ensures GridOf(data[..], config.pairs) == Wiped(old(GridOf(data[..], config.pairs)), generation)
    {
      hide Generation, Keep, Both, Wiping, GridOf;
      ghost var was := data[..];
      var q := 0;
      WipeStart(was, generation);
      while q < config.pairs
        invariant q <= config.pairs && Wiping(was, data[..], generation, q)
      {
        WipeStep(was, data[..], generation, q);
        var p1, p2 := data[2 * q], data[2 * q + 1];
        var mask := Keep(p1, p2, generation);
        ghost var now := data[..];
        data[2 * q] := Both(p1, mask);
        data[2 * q + 1] := Both(p2, mask);
        assert data[..] == now[2 * q := Both(p1, mask)][2 * q + 1 := Both(p2, mask)];
        q := q + 1;
      }
      WipeDone(was, data[..], generation, config.pairs);
    }

    method Insert(key: Key)
      requires Valid()
      modifies this, data
      ensures Valid() && history == old(history) + [key]
      ensures View() == Inserted(config, old(View()), key)
    {
      hide Recorded, Justified, Rolled, Marked, PositionOf, Inserted, GridOf;
      ghost var was := View();
      OkOf(config, was, history);
      RolledParts(config, was);
      Roll();
      entriesThisGeneration := entriesThisGeneration + 1;
      MarkKey(key);
      InsertedIs(config, was, key);
      assert View() == Inserted(config, was, key);
      InsertedKeeps(config, was, history, key);
      InsertedJustified(config, was, history, key);
      history := history + [key];
    }

    method MarkKey(key: Key)
      requires Shaped() && generation <= 3
      modifies data
      ensures View() == old(View()).(grid := Marked(config, tweak, key, old(View()).grid, generation, config.hashFuncs))
    {
      hide Marked, PositionOf, GridOf;
      ghost var was := View();
      MarkedNone(config, tweak, key, was.grid, generation);
      for n := 0 to config.hashFuncs
        invariant View() == was.(grid := Marked(config, tweak, key, was.grid, generation, n))
      {
        MarkedMore(config, tweak, key, was.grid, generation, n);
        MarkPosition(PositionOf(config, tweak, key, n));
      }
    }

    method MarkPosition(p: Position)
      requires Shaped() && p.0 < config.pairs && generation <= 3
      modifies data
      ensures View() == old(View()).(grid := old(View()).grid[p := generation])
    {
      hide Generation, Put, LowBit, HighBit;
      ghost var was := data[..];
      data[2 * p.0] := Put(data[2 * p.0], p.1, LowBit(generation));
      data[2 * p.0 + 1] := Put(data[2 * p.0 + 1], p.1, HighBit(generation));
      MarkOne(was, data[..], config.pairs, p, generation);
    }

    method Contains(key: Key) returns (found: bool)
      requires Valid()
      ensures found == Present(config, View(), key)
      ensures forall k | 0 <= k < |history| && |history| - k <= elements && history[k] == key :: found
    {
      hide PositionOf, Generation, Bit;
      found := true;
      for n := 0 to config.hashFuncs
        invariant found
        invariant forall m | 0 <= m < n :: View().grid[PositionOf(config, tweak, key, m)] != 0
      {
        var p := PositionOf(config, tweak, key, n);
        EitherBit(data[2 * p.0], data[2 * p.0 + 1], p.1);
        if !Bit(Either(data[2 * p.0], data[2 * p.0 + 1]), p.1) {
          found := false;
          break;
        }
      }
      forall k | 0 <= k < |history| && |history| - k <= elements && history[k] == key
        ensures Present(config, View(), key)
      {
        WindowFound(config, View(), history, k);
      }
    }
  }

  lemma AllUnset(data: seq<word>, pairs: nat)
    requires |data| == 2 * pairs && forall i | 0 <= i < |data| :: data[i] == 0
    ensures forall p | p in GridOf(data, pairs) :: GridOf(data, pairs)[p] == 0
  {
    forall p: Position | p.0 < pairs
      ensures GridOf(data, pairs)[p] == 0
    {
      NothingSet(p.1);
    }
  }

  lemma RolledParts(c: Config, f: Filter)
    requires Ok(c, f)
    ensures Rolled(c, f).tweak == f.tweak && 1 <= Rolled(c, f).generation <= 3
  {}

  lemma MarkedNone(c: Config, tweak: bv32, key: Key, grid: Grid, g: nat)
    requires Sized(c)
    ensures Marked(c, tweak, key, grid, g, 0) == grid
  {}

  lemma MarkedMore(c: Config, tweak: bv32, key: Key, grid: Grid, g: nat, n: nat)
    requires Sized(c)
    ensures Marked(c, tweak, key, grid, g, n + 1)
            == Marked(c, tweak, key, grid, g, n)[PositionOf(c, tweak, key, n) := g]
  {}
}
