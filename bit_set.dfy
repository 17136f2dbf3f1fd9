// The growable bit set of src/lib/utils/collections/BitSet.ts. Storage is a
// sequence of 32-bit words; the set it stands for is `Positions(bits)`, the
// unsigned positions whose bit is on. JavaScript's `>>>` and `<<` read a
// position as its unsigned 32-bit value, so every integer position is
// accepted and `p` and `p + 2^32` name the same bit.
module BitSet {
  import opened Monads

  /** `x >>> 0`: the unsigned 32-bit value of an integer. */
  function Unsigned(x: int): (u: nat)
    ensures u < 0x1_0000_0000 && (x - u) % 0x1_0000_0000 == 0
  {
    x % 0x1_0000_0000
  }

  /** `x | 0`: the signed 32-bit value of an integer. */
  function Signed(x: int): (s: int)
    ensures -0x8000_0000 <= s < 0x8000_0000 && (x - s) % 0x1_0000_0000 == 0
  {
    var u := Unsigned(x);
    if u < 0x8000_0000 then u else u - 0x1_0000_0000
  }

  /** The word holding position `u`. */
  function Offset(u: nat): nat
  {
    u / 32
  }

  /** The place of position `u` in its word (a shift count is taken modulo 32). */
  function Bit(u: nat): bv5
  {
    (u % 32) as bv5
  }

  lemma BitInjective(x: nat, y: nat)
    requires x < 32 && y < 32 && x as bv5 == y as bv5
    ensures x == y
  {
  }

  /** A position is fixed by its word and its place in the word. */
  lemma SamePosition(u: nat, v: nat)
    ensures Offset(u) == Offset(v) && Bit(u) == Bit(v) <==> u == v
  {
    if Bit(u) == Bit(v) {
      BitInjective(u % 32, v % 32);
    }
    assert u == 32 * Offset(u) + u % 32 && v == 32 * Offset(v) + v % 32;
  }

  /** `1 << i`. */
  function Mask(i: bv5): bv32
  {
    (1 as bv32) << i
  }

  /** Bit `i` of `w` is on. */
  predicate Test(w: bv32, i: bv5)
  {
    w & Mask(i) != 0
  }

  lemma TestOr(w: bv32, i: bv5, j: bv5)
    ensures Test(w | Mask(i), j) <==> i == j || Test(w, j)
  {
    assert (w | Mask(i)) & Mask(j) == (w & Mask(j)) | (Mask(i) & Mask(j));
    if i != j {
      assert Mask(i) & Mask(j) == 0;
    }
  }

  lemma TestAndNot(w: bv32, i: bv5, j: bv5)
    ensures Test(w & !Mask(i), j) <==> i != j && Test(w, j)
  {
  }

  lemma TestXor(w: bv32, i: bv5, j: bv5)
    ensures Test(w ^ Mask(i), j) <==> (if i == j then !Test(w, j) else Test(w, j))
  {
  }

  /** Or-ing in a bit that is already on leaves the word as it was. */
  lemma OrPresent(w: bv32, i: bv5)
    requires Test(w, i)
    ensures w | Mask(i) == w
  {
  }

  /** Bit `u` of `words` is on; a missing word reads as `undefined`, which the bitwise operators take as 0. */
  predicate Has(words: seq<bv32>, u: nat)
  {
    Test(WordAt(words, Offset(u)), Bit(u))
  }

  /** Word `o` of `words`, 0 when there is none. */
  function WordAt(words: seq<bv32>, o: nat): bv32
  {
    if o < |words| then words[o] else 0
  }

  /** The positions the words `words` hold. */
  ghost function Positions(words: seq<bv32>): set<nat>
  {
    set u: nat | u < 32 * |words| && Has(words, u)
  }

  /** A position is held exactly when its bit is on. */
  lemma InPositions(words: seq<bv32>, u: nat)
    ensures u in Positions(words) <==> Has(words, u)
  {
    if u >= 32 * |words| {
      assert WordAt(words, Offset(u)) == 0;
      assert !Test(0, Bit(u));
    }
  }

  /** The number of words `new BitSet(n)` allocates: `n >> 5`, plus one when `n & 0x1f` is not zero; `None` when that is negative, where `new Array` throws. */
  function InitialLength(n: int): (r: Maybe<nat>)
  {
    var s := Signed(n);
    var length := s / 32 + (if s % 32 != 0 then 1 else 0);
    if length < 0 then None else Some(length)
  }

  /** For a size below 2^31 the set has room for `[0, n)` and not a word more. */
  lemma InitialLengthCovers(n: int)
    requires 0 <= n < 0x8000_0000
    ensures InitialLength(n).Some?
    ensures var length := InitialLength(n).value; n <= 32 * length < n + 32
  {
  }

  /** `words` padded with zero words to at least `n` words, as `ensure(n)` does. */
  function Padded(words: seq<bv32>, n: nat): (r: seq<bv32>)
    ensures |r| == if n <= |words| then |words| else n
    ensures r[..|words|] == words
    ensures forall i :: |words| <= i < |r| ==> r[i] == 0
  {
    if n <= |words| then words else words + seq(n - |words|, _ => 0)
  }

  /** `words[o] = w` on words at least `o` long: the array grows by one when `o` is its length. */
  function Store(words: seq<bv32>, o: nat, w: bv32): (r: seq<bv32>)
    requires o <= |words|
  {
    if o < |words| then words[o := w] else words + [w]
  }

  /** The words after `ensure(o)` and a write of `w` to word `o`. */
  function Write(words: seq<bv32>, o: nat, w: bv32): seq<bv32>
  {
    Store(Padded(words, o), o, w)
  }

  /**
   * A write reaches word `o`: the words grow to `o + 1` if shorter, the new
   * ones other than `o` are zero, and every other word is kept.
   */
  lemma {:induction false} WriteWords(words: seq<bv32>, o: nat, w: bv32)
    ensures |Write(words, o, w)| == if o < |words| then |words| else o + 1
    ensures forall i :: 0 <= i < |Write(words, o, w)| ==>
      Write(words, o, w)[i] == if i == o then w else WordAt(words, i)
  {
    var padded := Padded(words, o);
    forall i | 0 <= i < |Write(words, o, w)|
      ensures Write(words, o, w)[i] == if i == o then w else WordAt(words, i)
    {
      if i != o && i < |words| {
        assert padded[i] == padded[..|words|][i];
      }
    }
  }

  /** Reading any word after a write to word `o`. */
  lemma WordAtWrite(words: seq<bv32>, o: nat, w: bv32, i: nat)
    ensures WordAt(Write(words, o, w), i) == if i == o then w else WordAt(words, i)
  {
    WriteWords(words, o, w);
  }

  /** The words after `set(p)` for `u == p >>> 0`. */
  function SetWords(words: seq<bv32>, u: nat): seq<bv32>
  {
    Write(words, Offset(u), WordAt(words, Offset(u)) | Mask(Bit(u)))
  }

  /** The words after `clear(p)` for `u == p >>> 0`. */
  function ClearWords(words: seq<bv32>, u: nat): seq<bv32>
  {
    Write(words, Offset(u), WordAt(words, Offset(u)) & !Mask(Bit(u)))
  }

  /** The words after `toggle(p)` for `u == p >>> 0`. */
  function ToggleWords(words: seq<bv32>, u: nat): seq<bv32>
  {
    Write(words, Offset(u), WordAt(words, Offset(u)) ^ Mask(Bit(u)))
  }

  /** After `set(p)`, bit `v` is on exactly when it is `p >>> 0` or was on. */
  lemma HasSet(words: seq<bv32>, u: nat, v: nat)
    ensures Has(SetWords(words, u), v) <==> v == u || Has(words, v)
  {
    var o, b, o', b' := Offset(u), Bit(u), Offset(v), Bit(v);
    var w := WordAt(words, o);
    WordAtWrite(words, o, w | Mask(b), o');
    TestOr(w, b, b');
    SamePosition(u, v);
    assert SetWords(words, u) == Write(words, o, w | Mask(b));
    assert Has(SetWords(words, u), v) == Test(WordAt(Write(words, o, w | Mask(b)), o'), b');
    assert Has(words, v) == Test(WordAt(words, o'), b');
  }

  /** After `clear(p)`, bit `v` is on exactly when it is not `p >>> 0` and was on. */
  lemma HasClear(words: seq<bv32>, u: nat, v: nat)
    ensures Has(ClearWords(words, u), v) <==> v != u && Has(words, v)
  {
    var o, b, o', b' := Offset(u), Bit(u), Offset(v), Bit(v);
    var w := WordAt(words, o);
    WordAtWrite(words, o, w & !Mask(b), o');
    TestAndNot(w, b, b');
    SamePosition(u, v);
    assert ClearWords(words, u) == Write(words, o, w & !Mask(b));
    assert Has(ClearWords(words, u), v) == Test(WordAt(Write(words, o, w & !Mask(b)), o'), b');
    assert Has(words, v) == Test(WordAt(words, o'), b');
  }

  /** After `toggle(p)`, bit `p >>> 0` is flipped and every other bit kept. */
  lemma HasToggle(words: seq<bv32>, u: nat, v: nat)
    ensures Has(ToggleWords(words, u), v) <==> if v == u then !Has(words, u) else Has(words, v)
  {
    var o, b, o', b' := Offset(u), Bit(u), Offset(v), Bit(v);
    var w := WordAt(words, o);
    WordAtWrite(words, o, w ^ Mask(b), o');
    TestXor(w, b, b');
    SamePosition(u, v);
    assert ToggleWords(words, u) == Write(words, o, w ^ Mask(b));
    assert Has(ToggleWords(words, u), v) == Test(WordAt(Write(words, o, w ^ Mask(b)), o'), b');
    assert Has(words, v) == Test(WordAt(words, o'), b');
    assert Has(words, u) == Test(w, b);
  }

  /** `set(p)` adds `p >>> 0` and nothing else. */
  lemma {:induction false} PositionsSet(words: seq<bv32>, u: nat)
    ensures Positions(SetWords(words, u)) == Positions(words) + {u}
  {
    forall v: nat
      ensures v in Positions(SetWords(words, u)) <==> v in Positions(words) + {u}
    {
      HasSet(words, u, v);
      InPositions(SetWords(words, u), v);
      InPositions(words, v);
    }
  }

  /** `clear(p)` removes `p >>> 0` and nothing else. */
  lemma {:induction false} PositionsClear(words: seq<bv32>, u: nat)
    ensures Positions(ClearWords(words, u)) == Positions(words) - {u}
  {
    forall v: nat
      ensures v in Positions(ClearWords(words, u)) <==> v in Positions(words) - {u}
    {
      HasClear(words, u, v);
      InPositions(ClearWords(words, u), v);
      InPositions(words, v);
    }
  }

  /** `toggle(p)` flips `p >>> 0` and nothing else. */
  lemma {:induction false} PositionsToggle(words: seq<bv32>, u: nat)
    ensures Positions(ToggleWords(words, u)) == if u in Positions(words) then Positions(words) - {u} else Positions(words) + {u}
  {
    InPositions(words, u);
    forall v: nat
      ensures v in Positions(ToggleWords(words, u)) <==>
        v in (if u in Positions(words) then Positions(words) - {u} else Positions(words) + {u})
    {
      HasToggle(words, u, v);
      InPositions(ToggleWords(words, u), v);
      InPositions(words, v);
    }
  }

  /** Setting a bit that is already on leaves the words exactly as they were. */
  lemma {:induction false} SetPresent(words: seq<bv32>, u: nat)
    requires Has(words, u)
    ensures SetWords(words, u) == words
  {
    OrPresent(WordAt(words, Offset(u)), Bit(u));
  }

  /** Toggling the same position twice gives back the same positions. */
  lemma {:induction false} ToggleTwice(words: seq<bv32>, u: nat)
    ensures Positions(ToggleWords(ToggleWords(words, u), u)) == Positions(words)
  {
    PositionsToggle(words, u);
    PositionsToggle(ToggleWords(words, u), u);
  }

  /** The default size of a new set. */
  const DefaultSize := 32

  class BitSet {
    var bits: seq<bv32>

    /** Positions the set holds, as unsigned 32-bit values. */
    ghost function Members(): set<nat>
      reads this
    {
      Positions(bits)
    }

    /** `new BitSet(n)`: zero words enough for positions `[0, n)`. */
    constructor (n: int)
      requires InitialLength(n).Some?
      ensures bits == seq(InitialLength(n).value, _ => 0) && Members() == {}
    {
      var length := Signed(n) / 32;
      if Signed(n) % 32 != 0 {
        length := length + 1;
      }
      bits := seq(length, _ => 0);
      new;
      forall u: nat
        ensures u !in Positions(bits)
      {
        InPositions(bits, u);
      }
    }

    /** `get`: whether the position is in the set; false beyond the stored words. */
    function Get(p: int): (r: bool)
      reads this
      ensures r <==> Unsigned(p) in Members()
    {
      InPositions(bits, Unsigned(p));
      var offset := Offset(Unsigned(p));
      if offset >= |bits| then false else Test(bits[offset], Bit(Unsigned(p)))
    }

    /** `set`: adds the position, growing the storage as needed. */
    method Set(p: int)
      modifies this
      ensures bits == SetWords(old(bits), Unsigned(p))
      ensures Members() == old(Members()) + {Unsigned(p)}
    {
      var offset := Offset(Unsigned(p));
      Ensure(offset);
      var word := if offset < |bits| then bits[offset] else 0;
      assert word == WordAt(old(bits), offset) by {
        if offset < |old(bits)| {
          assert bits[offset] == bits[..|old(bits)|][offset];
        }
      }
      bits := Store(bits, offset, word | Mask(Bit(Unsigned(p))));
      PositionsSet(old(bits), Unsigned(p));
    }

    /** `clear`: removes the position, growing the storage as needed. */
    method Clear(p: int)
      modifies this
      ensures bits == ClearWords(old(bits), Unsigned(p))
      ensures Members() == old(Members()) - {Unsigned(p)}
    {
      var offset := Offset(Unsigned(p));
      Ensure(offset);
      var word := if offset < |bits| then bits[offset] else 0;
      assert word == WordAt(old(bits), offset) by {
        if offset < |old(bits)| {
          assert bits[offset] == bits[..|old(bits)|][offset];
        }
      }
      bits := Store(bits, offset, word & !Mask(Bit(Unsigned(p))));
      PositionsClear(old(bits), Unsigned(p));
    }

    /** `toggle`: flips the position, growing the storage as needed. */
    method Toggle(p: int)
      modifies this
      ensures bits == ToggleWords(old(bits), Unsigned(p))
      ensures Members() == if Unsigned(p) in old(Members()) then old(Members()) - {Unsigned(p)} else old(Members()) + {Unsigned(p)}
    {
      var offset := Offset(Unsigned(p));
      Ensure(offset);
      var word := if offset < |bits| then bits[offset] else 0;
      assert word == WordAt(old(bits), offset) by {
        if offset < |old(bits)| {
          assert bits[offset] == bits[..|old(bits)|][offset];
        }
      }
      bits := Store(bits, offset, word ^ Mask(Bit(Unsigned(p))));
      PositionsToggle(old(bits), Unsigned(p));
    }

    /** `ensure`: pushes zero words until there are `offset` of them. */
    method Ensure(offset: nat)
      modifies this
      ensures bits == Padded(old(bits), offset)
    {
      var delta := offset - |bits|;
      if delta > 0 {
        var i := 0;
        while i < delta
          invariant 0 <= i <= delta
          invariant bits == old(bits) + seq(i, _ => 0)
        {
          bits := bits + [0];
          i := i + 1;
        }
      }
    }
  }
}
