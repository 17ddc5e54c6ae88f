/** The rolling bloom filter. Every position of the filter is two bits, kept in
    two words side by side: 0 is unset, 1 to 3 name the generation that set the
    position last. When a generation is full the next one starts, and the
    positions that still carry its number from three generations ago are wiped
    with bit masks, a whole word at a time.

    A 64-bit word is the set of its one-bits, numbered from 0 to 63. */
module RollingBloom {
  import Nonlinear

  type Word = set<nat>

  // The filter's words, how many keys the current generation holds, and which
  // generation it is.
  datatype Filter = Filter(data: seq<Word>, entries: nat, generation: int)

  /* Words */

  function Below(n: nat): (r: Word)
    ensures forall b: nat :: b in r <==> b < n
  { if n == 0 then {} else Below(n - 1) + {n - 1} }

  function And(v: Word, w: Word): Word { v * w }

  function Or(v: Word, w: Word): Word { v + w }

  function Xor(v: Word, w: Word): Word { (v - w) + (w - v) }

  function Not(w: Word): Word { Below(64) - w }

  // 0 or 1 negated, in 64 bits
  function Minus(bit: int): Word { if bit == 1 then Below(64) else {} }

  // 0 or 1 shifted left
  function Shl(bit: int, b: nat): Word { if bit == 1 then {b} else {} }

  /* Positions */

  const HASH_RANGE := 0x1_0000_0000

  type Hash = h: nat | h < HASH_RANGE

  // Multiplies instead of dividing.
  function FastMod(h: Hash, n: nat): (r: nat)
    requires n > 0
    ensures r < n
  {
    Nonlinear.MulMono(h, HASH_RANGE - 1, n);
    h * n / HASH_RANGE
  }

  // A cell of the filter: the first of its two words and the bit.
  datatype Place = Place(word: nat, bit: nat)

  // The number of words is even.
  function PlaceOf(h: Hash, n: nat): (p: Place)
    requires n > 0 && n % 2 == 0
    ensures Fits(p, n)
  { Place(FastMod(h, n) / 2 * 2, h % 64) }

  predicate Fits(p: Place, n: nat) { p.word % 2 == 0 && p.word + 1 < n && p.bit < 64 }

  // The generation stored at bit b of two words, 0 if none.
  function Cell(w1: Word, w2: Word, b: nat): int {
    (if b in w1 then 1 else 0) + (if b in w2 then 2 else 0)
  }

  function CellAt(data: seq<Word>, p: Place): int
    requires Fits(p, |data|)
  { Cell(data[p.word], data[p.word + 1], p.bit) }

  /* Operations */

  // The bits that do not hold the generation.
  function WipeMask(w1: Word, w2: Word, generation: int): Word {
    Or(Xor(w1, Minus(generation % 2)), Xor(w2, Minus(generation / 2)))
  }

  function Wiped(data: seq<Word>, generation: int): (r: seq<Word>)
    requires |data| % 2 == 0
    ensures |r| == |data|
  {
    seq(|data|, i requires 0 <= i < |data| =>
      And(data[i], WipeMask(data[i / 2 * 2], data[i / 2 * 2 + 1], generation)))
  }

  function SetBit(w: Word, b: nat, bit: int): Word { Or(And(w, Not(Shl(1, b))), Shl(bit, b)) }

  function Marked(data: seq<Word>, p: Place, generation: int): (r: seq<Word>)
    requires Fits(p, |data|)
    ensures |r| == |data|
  {
    data[p.word := SetBit(data[p.word], p.bit, generation % 2)]
        [p.word + 1 := SetBit(data[p.word + 1], p.bit, generation / 2)]
  }

  // A key is given by the places where the hash functions put it.
  type Key = seq<Place>

  predicate KeyFits(key: Key, n: nat) { forall i :: 0 <= i < |key| ==> Fits(key[i], n) }

  function MarkedAll(data: seq<Word>, key: Key, generation: int): (r: seq<Word>)
    requires KeyFits(key, |data|)
    ensures |r| == |data|
  {
    if key == [] then data
    else Marked(MarkedAll(data, key[..|key| - 1], generation), key[|key| - 1], generation)
  }

  function Empty(size: nat): Filter { Filter(seq(size, _ => {}), 0, 1) }

  // A new generation is started when the current one is full.
  function Turned(f: Filter, perGeneration: nat): (r: Filter)
    requires |f.data| % 2 == 0
    ensures |r.data| == |f.data|
  {
    if f.entries == perGeneration then
      var g := if f.generation + 1 == 4 then 1 else f.generation + 1;
      Filter(Wiped(f.data, g), 0, g)
    else f
  }

  function Inserted(f: Filter, perGeneration: nat, key: Key): (r: Filter)
    requires KeyFits(key, |f.data|) && |f.data| % 2 == 0
    ensures |r.data| == |f.data|
  {
    var t := Turned(f, perGeneration);
    Filter(MarkedAll(t.data, key, t.generation), t.entries + 1, t.generation)
  }

  predicate Contains(data: seq<Word>, key: Key)
    requires KeyFits(key, |data|)
  { forall i :: 0 <= i < |key| ==> CellAt(data, key[i]) != 0 }

  predicate AllFit(keys: seq<Key>, n: nat) { forall i :: 0 <= i < |keys| ==> KeyFits(keys[i], n) }

  // The filter after a sequence of inserts.
  function RunOf(size: nat, perGeneration: nat, keys: seq<Key>): (f: Filter)
    requires size % 2 == 0 && AllFit(keys, size)
    ensures |f.data| == size
  {
    if keys == [] then Empty(size)
    else Inserted(RunOf(size, perGeneration, keys[..|keys| - 1]), perGeneration, keys[|keys| - 1])
  }

  /* What the operations do to cells */

  lemma WipedWords(w1: Word, w2: Word, generation: int, b: nat, r1: Word, r2: Word)
    requires b < 64 && 1 <= generation <= 3
    requires r1 == And(w1, WipeMask(w1, w2, generation)) && r2 == And(w2, WipeMask(w1, w2, generation))
    ensures Cell(r1, r2, b) == if Cell(w1, w2, b) == generation then 0 else Cell(w1, w2, b)
  {
    assert b in Below(64);
  }

  // Wiping clears the cells of one generation and no others.
  lemma WipedCell(data: seq<Word>, generation: int, p: Place)
    requires Fits(p, |data|) && |data| % 2 == 0 && 1 <= generation <= 3
    ensures CellAt(Wiped(data, generation), p)
      == if CellAt(data, p) == generation then 0 else CellAt(data, p)
  {
    WipedPair(data, generation, p.word);
    WipedAt(data, Wiped(data, generation), generation, p);
  }

  lemma WipedAt(data: seq<Word>, r: seq<Word>, generation: int, p: Place)
    requires Fits(p, |data|) && |r| == |data| && 1 <= generation <= 3 && BothWiped(data, r, generation, p.word)
    ensures CellAt(r, p) == if CellAt(data, p) == generation then 0 else CellAt(data, p)
  {
    var i := p.word;
    WipedWords(data[i], data[i + 1], generation, p.bit, r[i], r[i + 1]);
  }

  ghost predicate BothWiped(data: seq<Word>, r: seq<Word>, generation: int, i: nat)
    requires i + 1 < |data| == |r|
  {
    var mask := WipeMask(data[i], data[i + 1], generation);
    r[i] == And(data[i], mask) && r[i + 1] == And(data[i + 1], mask)
  }

  lemma WipedPair(data: seq<Word>, generation: int, i: nat)
    requires |data| % 2 == 0 && i % 2 == 0 && i + 1 < |data|
    ensures BothWiped(data, Wiped(data, generation), generation, i)
  {
    assert i / 2 * 2 == i && (i + 1) / 2 * 2 == i;
  }

  // Marking changes one cell.
  lemma MarkedCell(data: seq<Word>, generation: int, p: Place, q: Place)
    requires Fits(p, |data|) && Fits(q, |data|) && 1 <= generation <= 3
    ensures CellAt(Marked(data, p, generation), q) == if p == q then generation else CellAt(data, q)
  {
    assert p.bit in Below(64) && q.bit in Below(64);
  }

  lemma {:induction false} MarkedAllCell(data: seq<Word>, generation: int, key: Key, q: Place)
    requires KeyFits(key, |data|) && Fits(q, |data|) && 1 <= generation <= 3
    ensures CellAt(MarkedAll(data, key, generation), q) == if q in key then generation else CellAt(data, q)
  {
    if key != [] {
      var rest, last := key[..|key| - 1], key[|key| - 1];
      MarkedAllCell(data, generation, rest, q);
      MarkedCell(MarkedAll(data, rest, generation), generation, last, q);
      assert key == rest + [last];
    }
  }

  /* No false negatives */

  // How many generations ago a cell was set.
  function Age(generation: int, cell: int): int {
    if cell <= generation then generation - cell else generation - cell + 3
  }

  predicate Young(f: Filter, p: Place, age: nat)
    requires Fits(p, |f.data|)
  { 1 <= CellAt(f.data, p) <= 3 && Age(f.generation, CellAt(f.data, p)) <= age }

  // Every cell of a key was set, at most age generations ago.
  predicate AllYoung(f: Filter, key: Key, age: nat)
    requires KeyFits(key, |f.data|)
  { forall i :: 0 <= i < |key| ==> Young(f, key[i], age) }

  lemma YoungContained(f: Filter, key: Key, age: nat)
    requires KeyFits(key, |f.data|) && AllYoung(f, key, age)
    ensures Contains(f.data, key)
  {
    assert forall i :: 0 <= i < |key| ==> Young(f, key[i], age);
  }

  // Starting a generation ages the cells by one, and wipes only the oldest.
  lemma TurnedYoung(f: Filter, perGeneration: nat, key: Key, age: nat)
    requires |f.data| % 2 == 0 && 1 <= f.generation <= 3
    requires KeyFits(key, |f.data|) && AllYoung(f, key, age) && f.entries == perGeneration && age < 2
    ensures AllYoung(Turned(f, perGeneration), key, age + 1)
  {
    var t := Turned(f, perGeneration);
    forall i | 0 <= i < |key|
      ensures Young(t, key[i], age + 1)
    {
      WipedCell(f.data, t.generation, key[i]);
      assert Young(f, key[i], age);
    }
  }

  lemma MarkedYoung(f: Filter, key: Key, other: Key, age: nat)
    requires 1 <= f.generation <= 3 && KeyFits(key, |f.data|) && KeyFits(other, |f.data|)
    requires other == key || AllYoung(f, other, age)
    ensures AllYoung(Filter(MarkedAll(f.data, key, f.generation), f.entries + 1, f.generation), other, age)
  {
    var r := Filter(MarkedAll(f.data, key, f.generation), f.entries + 1, f.generation);
    forall i | 0 <= i < |other|
      ensures Young(r, other[i], age)
    {
      MarkedAllCell(f.data, f.generation, key, other[i]);
    }
  }

  lemma {:induction false} RunShape(size: nat, perGeneration: nat, keys: seq<Key>)
    requires size % 2 == 0 && perGeneration > 0 && AllFit(keys, size)
    ensures var f := RunOf(size, perGeneration, keys);
      1 <= f.generation <= 3 && f.entries <= perGeneration && (keys != [] ==> f.entries > 0)
  {
    if keys != [] {
      RunShape(size, perGeneration, keys[..|keys| - 1]);
    }
  }

  lemma InsertedYoung(f: Filter, perGeneration: nat, key: Key, other: Key, age: nat)
    requires |f.data| % 2 == 0 && 1 <= f.generation <= 3 && age <= 2
    requires KeyFits(key, |f.data|) && KeyFits(other, |f.data|)
    requires
      || other == key
      || (f.entries == perGeneration && age > 0 && AllYoung(f, other, age - 1))
      || (f.entries != perGeneration && AllYoung(f, other, age))
    ensures AllYoung(Inserted(f, perGeneration, key), other, age)
  {
    if other != key && f.entries == perGeneration {
      TurnedYoung(f, perGeneration, other, age - 1);
    }
    MarkedYoung(Turned(f, perGeneration), key, other, age);
  }

  // The number of keys in as many full generations.
  function Span(perGeneration: nat, generations: nat): nat {
    if generations == 0 then 0 else Span(perGeneration, generations - 1) + perGeneration
  }

  // A key inserted not more than age whole generations before the current one
  // has all its cells, none of them older than that.
  ghost predicate Remembers(perGeneration: nat, keys: seq<Key>, f: Filter)
    requires AllFit(keys, |f.data|)
  { forall i, age: nat :: 0 <= i < |keys| && age <= 2 ==> RememberedAt(perGeneration, keys, f, i, age) }

  ghost predicate RememberedAt(perGeneration: nat, keys: seq<Key>, f: Filter, i: nat, age: nat)
    requires AllFit(keys, |f.data|) && i < |keys|
  { |keys| - i <= Span(perGeneration, age) + f.entries ==> AllYoung(f, keys[i], age) }

  lemma RemembersNext(perGeneration: nat, keys: seq<Key>, f: Filter)
    requires |f.data| % 2 == 0 && 1 <= f.generation <= 3 && 0 < perGeneration && f.entries <= perGeneration
    requires keys != [] && AllFit(keys, |f.data|) && Remembers(perGeneration, keys[..|keys| - 1], f)
    ensures Remembers(perGeneration, keys, Inserted(f, perGeneration, keys[|keys| - 1]))
  {
    var n := |keys| - 1;
    forall i, age: nat | 0 <= i < |keys| && age <= 2
      ensures RememberedAt(perGeneration, keys, Inserted(f, perGeneration, keys[n]), i, age)
    {
      if |keys| - i <= Span(perGeneration, age) + Inserted(f, perGeneration, keys[n]).entries {
        if i < n {
          var before := if f.entries == perGeneration then age - 1 else age;
          assert RememberedAt(perGeneration, keys[..n], f, i, before);
        }
        InsertedYoung(f, perGeneration, keys[n], keys[i], age);
      }
    }
  }

  lemma {:induction false} RunRemembers(size: nat, perGeneration: nat, keys: seq<Key>)
    requires size % 2 == 0 && perGeneration > 0 && AllFit(keys, size)
    ensures Remembers(perGeneration, keys, RunOf(size, perGeneration, keys))
  {
    if keys != [] {
      RunShape(size, perGeneration, keys[..|keys| - 1]);
      RunRemembers(size, perGeneration, keys[..|keys| - 1]);
      RemembersNext(perGeneration, keys, RunOf(size, perGeneration, keys[..|keys| - 1]));
    }
  }

  // Every key of the last two full generations and of the current one is found.
  lemma NoFalseNegatives(size: nat, perGeneration: nat, keys: seq<Key>, i: nat)
    requires size % 2 == 0 && perGeneration > 0 && AllFit(keys, size)
    requires i < |keys| && |keys| - i <= 2 * perGeneration + RunOf(size, perGeneration, keys).entries
    ensures Contains(RunOf(size, perGeneration, keys).data, keys[i])
  {
    assert Span(perGeneration, 1) == perGeneration;
    assert Span(perGeneration, 2) == 2 * perGeneration;
    RunRemembers(size, perGeneration, keys);
    assert RememberedAt(perGeneration, keys, RunOf(size, perGeneration, keys), i, 2);
    YoungContained(RunOf(size, perGeneration, keys), keys[i], 2);
  }

  // So the filter for n elements remembers the last n at least.
  lemma RemembersLast(size: nat, n: nat, keys: seq<Key>, i: nat)
    requires size % 2 == 0 && n > 0 && AllFit(keys, size)
    requires i < |keys| && |keys| - i <= n
    ensures Contains(RunOf(size, (n + 1) / 2, keys).data, keys[i])
  {
    RunShape(size, (n + 1) / 2, keys);
    NoFalseNegatives(size, (n + 1) / 2, keys, i);
  }

  /* The filter as an object */

  // The places of a key, from a keyed hash: function number, tweak, key.
  function Places<K(!new)>(hash: (nat, nat, K) -> Hash, funcs: nat, tweak: nat, size: nat, key: K): (r: Key)
    requires size > 0 && size % 2 == 0
    ensures |r| == funcs && KeyFits(r, size)
  {
    if funcs == 0 then []
    else Places(hash, funcs - 1, tweak, size, key) + [PlaceOf(hash(funcs - 1, tweak, key), size)]
  }

  function AllPlaces<K(!new)>(hash: (nat, nat, K) -> Hash, funcs: nat, tweak: nat, size: nat,
                              keys: seq<K>): (r: seq<Key>)
    requires size > 0 && size % 2 == 0
    ensures |r| == |keys| && AllFit(r, size)
    ensures forall i :: 0 <= i < |keys| ==> r[i] == Places(hash, funcs, tweak, size, keys[i])
  {
    if keys == [] then []
    else AllPlaces(hash, funcs, tweak, size, keys[..|keys| - 1]) + [Places(hash, funcs, tweak, size, keys[|keys| - 1])]
  }

  // One more hash function adds one more place.
  lemma PlacesNext<K(!new)>(hash: (nat, nat, K) -> Hash, funcs: nat, tweak: nat, size: nat, key: K)
    requires size > 0 && size % 2 == 0
    ensures var more := Places(hash, funcs + 1, tweak, size, key);
      more[..funcs] == Places(hash, funcs, tweak, size, key)
      && more[funcs] == PlaceOf(hash(funcs, tweak, key), size)
  {}

  lemma {:induction false} PlacesPrefix<K(!new)>(hash: (nat, nat, K) -> Hash, n: nat, funcs: nat, tweak: nat,
                                                 size: nat, key: K)
    requires size > 0 && size % 2 == 0 && n < funcs
    ensures Places(hash, funcs, tweak, size, key)[n] == PlaceOf(hash(n, tweak, key), size)
  {
    if n + 1 < funcs {
      PlacesPrefix(hash, n, funcs - 1, tweak, size, key);
    }
  }

  lemma RunNext<K(!new)>(hash: (nat, nat, K) -> Hash, funcs: nat, tweak: nat, size: nat, perGeneration: nat,
                         keys: seq<K>, key: K)
    requires size > 0 && size % 2 == 0
    ensures RunOf(size, perGeneration, AllPlaces(hash, funcs, tweak, size, keys + [key]))
      == Inserted(RunOf(size, perGeneration, AllPlaces(hash, funcs, tweak, size, keys)), perGeneration,
                  Places(hash, funcs, tweak, size, key))
  {
    var places := AllPlaces(hash, funcs, tweak, size, keys + [key]);
    assert (keys + [key])[..|keys|] == keys;
    assert places[..|keys|] == AllPlaces(hash, funcs, tweak, size, keys);
  }

  class RollingBloomFilter<K(==, !new)> {
    var data: array<Word>
    var nEntriesPerGeneration: nat
    var nEntriesThisGeneration: nat
    var nGeneration: int
    var nTweak: nat
    var nHashFuncs: nat
    const hash: (nat, nat, K) -> Hash
    // The keys inserted since the last reset.
    ghost var inserted: seq<K>

    // The sizes come from the wanted false positive rate.
    constructor (nElements: nat, hash: (nat, nat, K) -> Hash, nHashFuncs: nat, words: nat, tweak: nat)
      requires nElements > 0 && words > 0 && words % 2 == 0
      ensures Valid() && fresh(data) && inserted == [] && data.Length == words
      ensures this.hash == hash && this.nHashFuncs == nHashFuncs && nEntriesPerGeneration == (nElements + 1) / 2
    {
      this.hash, this.nHashFuncs, nTweak, inserted := hash, nHashFuncs, tweak, [];
      nEntriesPerGeneration, nEntriesThisGeneration, nGeneration := (nElements + 1) / 2, 0, 1;
      data := new Word[words](_ => {});
      new;
      assert data[..] == Empty(data.Length).data;
    }

    ghost function PlacesOf(key: K): (r: Key)
      requires Shaped()
      reads this
      ensures KeyFits(r, data.Length)
    { Places(hash, nHashFuncs, nTweak, data.Length, key) }

    ghost predicate Shaped()
      reads this
    { data.Length > 0 && data.Length % 2 == 0 && nEntriesPerGeneration > 0 }

    ghost predicate Valid()
      reads this, data
    {
      && Shaped()
      && Filter(data[..], nEntriesThisGeneration, nGeneration)
         == RunOf(data.Length, nEntriesPerGeneration, AllPlaces(hash, nHashFuncs, nTweak, data.Length, inserted))
    }

    method Wipe()
      requires Shaped()
      modifies data
      ensures data[..] == Wiped(old(data[..]), nGeneration)
    {
      var p := 0;
      while p < data.Length
        invariant 0 <= p <= data.Length && p % 2 == 0
        invariant data[..p] == Wiped(old(data[..]), nGeneration)[..p]
        invariant data[p..] == old(data[p..])
      {
        var p1, p2 := data[p], data[p + 1];
        var mask := Or(Xor(p1, Minus(nGeneration % 2)), Xor(p2, Minus(nGeneration / 2)));
        assert p1 == data[p..][0] && p2 == data[p..][1];
        WipedPair(old(data[..]), nGeneration, p);
        data[p], data[p + 1] := And(p1, mask), And(p2, mask);
        p := p + 2;
      }
    }

    method MarkAt(p: Place)
      requires Fits(p, data.Length)
      modifies data
      ensures data[..] == Marked(old(data[..]), p, nGeneration)
    {
      data[p.word] := Or(And(data[p.word], Not(Shl(1, p.bit))), Shl(nGeneration % 2, p.bit));
      data[p.word + 1] := Or(And(data[p.word + 1], Not(Shl(1, p.bit))), Shl(nGeneration / 2, p.bit));
    }

    method Mark(key: K)
      requires Shaped()
      modifies data
      ensures data[..] == MarkedAll(old(data[..]), PlacesOf(key), nGeneration)
    {
      for n := 0 to nHashFuncs
        invariant data[..] == MarkedAll(old(data[..]), Places(hash, n, nTweak, data.Length, key), nGeneration)
      {
        PlacesNext(hash, n, nTweak, data.Length, key);
        MarkAt(PlaceOf(hash(n, nTweak, key), data.Length));
      }
    }

    // Starts the next generation if the current one is full.
    method Turn()
      requires Shaped()
      modifies this`nEntriesThisGeneration, this`nGeneration, data
      ensures Filter(data[..], nEntriesThisGeneration, nGeneration)
        == Turned(old(Filter(data[..], nEntriesThisGeneration, nGeneration)), nEntriesPerGeneration)
    {
      if nEntriesThisGeneration == nEntriesPerGeneration {
        nEntriesThisGeneration := 0;
        nGeneration := nGeneration + 1;
        if nGeneration == 4 {
          nGeneration := 1;
        }
        Wipe();
      }
    }

    method Insert(key: K)
      requires Valid()
      modifies this`nEntriesThisGeneration, this`nGeneration, this`inserted, data
      ensures Valid() && inserted == old(inserted) + [key]
    {
      RunNext(hash, nHashFuncs, nTweak, data.Length, nEntriesPerGeneration, inserted, key);
      Turn();
      nEntriesThisGeneration := nEntriesThisGeneration + 1;
      Mark(key);
      inserted := inserted + [key];
    }

    // Never false for a key of the last two full generations or the current one.
    method MayContain(key: K) returns (r: bool)
      requires Valid()
      ensures r <==> Contains(data[..], PlacesOf(key))
      ensures (exists i :: 0 <= i < |inserted| && inserted[i] == key && Recent(i)) ==> r
    {
      if exists i :: 0 <= i < |inserted| && inserted[i] == key && Recent(i) {
        Found(key);
      }
      r := AllSet(key);
    }

    lemma Found(key: K)
      requires Valid() && exists i :: 0 <= i < |inserted| && inserted[i] == key && Recent(i)
      ensures Contains(data[..], PlacesOf(key))
    {
      var i :| 0 <= i < |inserted| && inserted[i] == key && Recent(i);
      var places := AllPlaces(hash, nHashFuncs, nTweak, data.Length, inserted);
      NoFalseNegatives(data.Length, nEntriesPerGeneration, places, i);
    }

    // Whether all cells of a key are set.
    method AllSet(key: K) returns (r: bool)
      requires Shaped()
      ensures r <==> Contains(data[..], PlacesOf(key))
    {
      for n := 0 to nHashFuncs
        invariant Contains(data[..], Places(hash, n, nTweak, data.Length, key))
      {
        PlacesNext(hash, n, nTweak, data.Length, key);
        var p := PlaceOf(hash(n, nTweak, key), data.Length);
        if p.bit !in Or(data[p.word], data[p.word + 1]) {
          PlacesPrefix(hash, n, nHashFuncs, nTweak, data.Length, key);
          assert CellAt(data[..], PlacesOf(key)[n]) == 0;
          return false;
        }
      }
      return true;
    }

    ghost predicate Recent(i: nat)
      reads this
    { |inserted| - i <= 2 * nEntriesPerGeneration + nEntriesThisGeneration }

    method Reset(tweak: nat)
      requires Shaped()
      modifies this`nTweak, this`nEntriesThisGeneration, this`nGeneration, this`inserted, data
      ensures Valid() && inserted == [] && nTweak == tweak
    {
      nTweak, nEntriesThisGeneration, nGeneration, inserted := tweak, 0, 1, [];
      Zero();
    }

    method Zero()
      modifies data
      ensures data[..] == Empty(data.Length).data
    {
      for i := 0 to data.Length
        invariant forall j :: 0 <= j < i ==> data[j] == {}
      {
        data[i] := {};
      }
    }
  }
}
