/** The rolling Bloom filter: a set of recently inserted keys in three generations. */
module RollingBloom {
  import opened BitPlanes

  type Key = seq<bv8>
  type Position = (nat, bit)

  /** Sizes are fixed at construction; the hash takes a number, the tweak and the key. */
  datatype Config = Config(pairs: nat, hashFuncs: nat, perGeneration: nat, hash: (nat, bv32, Key) -> bv32)

  predicate Sized(c: Config) { c.pairs >= 1 && c.perGeneration >= 1 }

  /** The pair of words and the bit that hash number n of a key selects. */
  function PositionOf(c: Config, tweak: bv32, key: Key, n: nat): (p: Position)
    requires Sized(c)
    ensures p.0 < c.pairs
  {
    var h := c.hash(n, tweak, key);
    ((h >> 6) as nat % (2 * c.pairs) / 2, (h & 0x3f) as bit)
  }

  /** The low six bits of a hash choose the bit, the rest of it the pair of words. */
  lemma PositionIs(c: Config, tweak: bv32, key: Key, n: nat, high: bv32, low: bv32)
    requires Sized(c) && high < 0x0400_0000 && low < 64 && c.hash(n, tweak, key) == (high << 6) | low
    ensures PositionOf(c, tweak, key, n) == (high as nat % (2 * c.pairs) / 2, low as bit)
  {
    Parts(high, low);
  }

  lemma Parts(high: bv32, low: bv32)
    requires high < 0x0400_0000 && low < 64
    ensures ((high << 6) | low) >> 6 == high && ((high << 6) | low) & 0x3f == low
  {}

  // ----- the plain filter: a generation number for every position, 0 for unset

  type Grid = imap<Position, nat>

  datatype Filter = Filter(grid: Grid, generation: nat, entries: nat, tweak: bv32)

  function After(g: nat): nat { if g == 3 then 1 else g + 1 }

  ghost predicate Complete(c: Config, grid: Grid) {
    forall p: Position | p.0 < c.pairs :: p in grid
  }

  ghost predicate Ok(c: Config, f: Filter) {
    Sized(c) && Complete(c, f.grid) && 1 <= f.generation <= 3 && f.entries <= c.perGeneration
  }

  ghost function Wiped(grid: Grid, g: nat): Grid {
    imap p | p in grid :: if grid[p] == g then 0 else grid[p]
  }

  ghost function Marked(c: Config, tweak: bv32, key: Key, grid: Grid, g: nat, n: nat): Grid
    requires Sized(c)
  {
    if n == 0 then grid else Marked(c, tweak, key, grid, g, n - 1)[PositionOf(c, tweak, key, n - 1) := g]
  }

  ghost function Rolled(c: Config, f: Filter): Filter {
    if f.entries == c.perGeneration
    then Filter(Wiped(f.grid, After(f.generation)), After(f.generation), 0, f.tweak)
    else f
  }

  ghost function Inserted(c: Config, f: Filter, key: Key): Filter
    requires Sized(c)
  {
    var r := Rolled(c, f);
    r.(grid := Marked(c, r.tweak, key, r.grid, r.generation, c.hashFuncs), entries := r.entries + 1)
  }

  ghost predicate Present(c: Config, f: Filter, key: Key)
    requires Sized(c)
  {
    forall n | 0 <= n < c.hashFuncs ::
      PositionOf(c, f.tweak, key, n) in f.grid && f.grid[PositionOf(c, f.tweak, key, n)] != 0
  }

  // ----- recently inserted keys are found

  /** How many generations x is behind g. */
  function Behind(g: nat, x: nat): nat
    requires x <= 3
  {
    (g + 3 - x) % 3
  }

  predicate Within(x: nat, g: nat, a: nat) { 1 <= x <= 3 && Behind(g, x) <= a }

  /** How far behind the marks of the d-th last key may be. */
  function Age(c: Config, entries: nat, d: nat): nat {
    if d <= entries then 0 else if d <= entries + c.perGeneration then 1 else 2
  }

  function Window(c: Config, entries: nat): nat { entries + 2 * c.perGeneration }

  ghost predicate MarksOk(c: Config, f: Filter, key: Key, a: nat)
    requires Sized(c)
  {
    forall n | 0 <= n < c.hashFuncs ::
      PositionOf(c, f.tweak, key, n) in f.grid && Within(f.grid[PositionOf(c, f.tweak, key, n)], f.generation, a)
  }

  /** The marks of every key in the window are recent enough. */
  ghost predicate Recorded(c: Config, f: Filter, history: seq<Key>) {
    Ok(c, f) &&
    forall k | 0 <= k < |history| && |history| - k <= Window(c, f.entries) ::
      MarksOk(c, f, history[k], Age(c, f.entries, |history| - k))
  }

  lemma RolledKeeps(c: Config, f: Filter, history: seq<Key>)
    requires Recorded(c, f, history)
    ensures Recorded(c, Rolled(c, f), history) && Rolled(c, f).entries < c.perGeneration
  {
    var r := Rolled(c, f);
    if f.entries == c.perGeneration {
      forall k | 0 <= k < |history| && |history| - k <= Window(c, r.entries)
        ensures MarksOk(c, r, history[k], Age(c, 0, |history| - k))
      {
        assert MarksOk(c, f, history[k], Age(c, f.entries, |history| - k));
      }
    }
  }

  lemma {:induction false} MarkedIs(c: Config, tweak: bv32, key: Key, grid: Grid, g: nat, n: nat)
    requires Sized(c)
    ensures grid.Keys <= Marked(c, tweak, key, grid, g, n).Keys
    ensures forall p | p in grid ::
              var now := Marked(c, tweak, key, grid, g, n)[p]; now == grid[p] || now == g
    ensures forall m | 0 <= m < n ::
              PositionOf(c, tweak, key, m) in Marked(c, tweak, key, grid, g, n)
              && Marked(c, tweak, key, grid, g, n)[PositionOf(c, tweak, key, m)] == g
  {
    hide PositionOf;
    if n > 0 { MarkedIs(c, tweak, key, grid, g, n - 1); }
  }

  lemma InsertedKeeps(c: Config, f: Filter, history: seq<Key>, key: Key)
    requires Recorded(c, f, history)
    ensures Recorded(c, Inserted(c, f, key), history + [key])
  {
    RolledKeeps(c, f, history);
    var r := Rolled(c, f);
    var i := Inserted(c, f, key);
    hide PositionOf, Rolled, Inserted;
    assert i == r.(grid := Marked(c, r.tweak, key, r.grid, r.generation, c.hashFuncs), entries := r.entries + 1) by {
      InsertedIs(c, f, key);
    }
    MarkedIs(c, r.tweak, key, r.grid, r.generation, c.hashFuncs);
    var now := history + [key];
    forall k | 0 <= k < |now| && |now| - k <= Window(c, i.entries)
      ensures MarksOk(c, i, now[k], Age(c, i.entries, |now| - k))
    {
      if k < |history| {
        assert MarksOk(c, r, history[k], Age(c, r.entries, |history| - k));
      }
    }
  }

  lemma InsertedIs(c: Config, f: Filter, key: Key)
    requires Sized(c)
    ensures var r := Rolled(c, f);
            Inserted(c, f, key) == r.(grid := Marked(c, r.tweak, key, r.grid, r.generation, c.hashFuncs),
              entries := r.entries + 1)
  {}

  lemma WindowFound(c: Config, f: Filter, history: seq<Key>, k: nat)
    requires Recorded(c, f, history) && k < |history| && |history| - k <= Window(c, f.entries)
    ensures Present(c, f, history[k])
  {
    assert MarksOk(c, f, history[k], Age(c, f.entries, |history| - k));
  }

  /** A filter built for so many elements, right after a reset. */
  ghost predicate Fresh(c: Config, f: Filter, elements: nat) {
    && Ok(c, f) && c.perGeneration == (elements + 1) / 2
    && f.generation == 1 && f.entries == 0 && forall p | p in f.grid :: f.grid[p] == 0
  }

  ghost function Run(c: Config, f: Filter, keys: seq<Key>): Filter
    requires Sized(c)
  {
    if keys == [] then f else Inserted(c, Run(c, f, keys[..|keys| - 1]), keys[|keys| - 1])
  }

  lemma {:induction false} RunKeeps(c: Config, f: Filter, elements: nat, keys: seq<Key>)
    requires Fresh(c, f, elements)
    ensures Recorded(c, Run(c, f, keys), keys)
  {
    hide Recorded, Inserted;
    if keys == [] {
      NothingRecorded(c, f);
    } else {
      var init := keys[..|keys| - 1];
      RunKeeps(c, f, elements, init);
      InsertedKeeps(c, Run(c, f, init), init, keys[|keys| - 1]);
      assert keys == init + [keys[|keys| - 1]];
    }
  }

  lemma NothingRecorded(c: Config, f: Filter)
    requires Ok(c, f)
    ensures Recorded(c, f, [])
  {}

  /** After any insertions, each of the last so many keys is found. */
  lemma RecentKeysFound(c: Config, f: Filter, elements: nat, keys: seq<Key>, k: nat)
    requires Fresh(c, f, elements) && k < |keys| && |keys| - k <= elements
    ensures Present(c, Run(c, f, keys), keys[k])
  {
    hide Recorded, Present, Run;
    RunKeeps(c, f, elements, keys);
    WindowFound(c, Run(c, f, keys), keys, k);
  }

  // ----- and nothing older leaves a trace

  ghost predicate MarkedBy(c: Config, tweak: bv32, key: Key, p: Position, n: nat)
    requires Sized(c)
  {
    exists m | 0 <= m < n :: PositionOf(c, tweak, key, m) == p
  }

  /** Key k of the history marks p and belongs to the generation a behind the current one. */
  ghost predicate Owner(c: Config, f: Filter, history: seq<Key>, p: Position, a: nat, k: nat)
    requires Sized(c)
  {
    && k < |history| && |history| - k <= Window(c, f.entries)
    && Age(c, f.entries, |history| - k) == a && MarkedBy(c, f.tweak, history[k], p, c.hashFuncs)
  }

  ghost predicate Owned(c: Config, f: Filter, history: seq<Key>, p: Position)
    requires Sized(c) && p in f.grid
  {
    f.grid[p] <= 3 && exists k :: Owner(c, f, history, p, Behind(f.generation, f.grid[p]), k)
  }

  ghost predicate Justified(c: Config, f: Filter, history: seq<Key>) {
    Ok(c, f) && forall p | p in f.grid && f.grid[p] != 0 :: Owned(c, f, history, p)
  }

  lemma RolledJustified(c: Config, f: Filter, history: seq<Key>)
    requires Justified(c, f, history)
    ensures Justified(c, Rolled(c, f), history)
  {
    var r := Rolled(c, f);
    if f.entries == c.perGeneration {
      forall p | p in r.grid && r.grid[p] != 0
        ensures Owned(c, r, history, p)
      {
        assert Owned(c, f, history, p);
        var k :| Owner(c, f, history, p, Behind(f.generation, f.grid[p]), k);
        assert Owner(c, r, history, p, Behind(r.generation, r.grid[p]), k);
      }
    }
  }

  lemma {:induction false} MarkedOnly(c: Config, tweak: bv32, key: Key, grid: Grid, g: nat, n: nat)
    requires Sized(c)
    ensures forall p | p in Marked(c, tweak, key, grid, g, n) ::
              || (p in grid && Marked(c, tweak, key, grid, g, n)[p] == grid[p])
              || (MarkedBy(c, tweak, key, p, n) && Marked(c, tweak, key, grid, g, n)[p] == g)
  {
    hide PositionOf;
    if n > 0 { MarkedOnly(c, tweak, key, grid, g, n - 1); }
  }

  lemma InsertedJustified(c: Config, f: Filter, history: seq<Key>, key: Key)
    requires Justified(c, f, history) && f.entries <= c.perGeneration
    ensures Justified(c, Inserted(c, f, key), history + [key])
  {
    hide Marked, MarkedBy;
    RolledJustified(c, f, history);
    var r := Rolled(c, f);
    var i := Inserted(c, f, key);
    MarkedOnly(c, r.tweak, key, r.grid, r.generation, c.hashFuncs);
    MarkedIs(c, r.tweak, key, r.grid, r.generation, c.hashFuncs);
    var now := history + [key];
    forall p | p in i.grid && i.grid[p] != 0
      ensures Owned(c, i, now, p)
    {
      if p in r.grid && i.grid[p] == r.grid[p] {
        assert Owned(c, r, history, p);
        var k :| Owner(c, r, history, p, Behind(r.generation, r.grid[p]), k);
        assert Owner(c, i, now, p, Behind(i.generation, i.grid[p]), k);
      } else {
        assert Behind(i.generation, i.grid[p]) == 0;
        assert Owner(c, i, now, p, 0, |history|);
      }
    }
  }

  lemma {:induction false} RunJustified(c: Config, f: Filter, elements: nat, keys: seq<Key>)
    requires Fresh(c, f, elements)
    ensures Justified(c, Run(c, f, keys), keys)
  {
    hide Justified, Inserted;
    if keys == [] {
      NothingJustified(c, f, elements);
    } else {
      var init := keys[..|keys| - 1];
      RunJustified(c, f, elements, init);
      assert Run(c, f, init).entries <= c.perGeneration by { OkOf(c, Run(c, f, init), init); }
      InsertedJustified(c, Run(c, f, init), init, keys[|keys| - 1]);
      assert keys == init + [keys[|keys| - 1]];
    }
  }

  lemma OkOf(c: Config, f: Filter, history: seq<Key>)
    requires Justified(c, f, history)
    ensures Ok(c, f)
  {}

  lemma NothingJustified(c: Config, f: Filter, elements: nat)
    requires Fresh(c, f, elements)
    ensures Justified(c, f, [])
  {}

  /** A position is set exactly when a key in the window marks it. */
  lemma SetExactlyByWindow(c: Config, f: Filter, elements: nat, keys: seq<Key>, p: Position)
    requires Fresh(c, f, elements) && p.0 < c.pairs
    ensures var r := Run(c, f, keys);
            && p in r.grid
            && (r.grid[p] != 0 <==>
                exists k | 0 <= k < |keys| && |keys| - k <= Window(c, r.entries) ::
                  MarkedBy(c, r.tweak, keys[k], p, c.hashFuncs))
  {
    hide Run;
    RunKeeps(c, f, elements, keys);
    RunJustified(c, f, elements, keys);
    var r := Run(c, f, keys);
    if r.grid[p] != 0 {
      assert Owned(c, r, keys, p);
      var k :| Owner(c, r, keys, p, Behind(r.generation, r.grid[p]), k);
    }
    if k :| 0 <= k < |keys| && |keys| - k <= Window(c, r.entries) && MarkedBy(c, r.tweak, keys[k], p, c.hashFuncs) {
      assert MarksOk(c, r, keys[k], Age(c, r.entries, |keys| - k));
    }
  }
}
