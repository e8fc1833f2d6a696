/**
 The packed tag word of a task (exception/synchronous/svc/svc.c:4-29, 489-497; lib/core.c:139-143): up to sixteen
 4-bit resource tags in one 64-bit word, lowest nibble first, with a separate count.

 All masks and shifts meant by the code are by whole nibbles, so they are written here digit by digit in base 16.
 */
module Tags {
  import opened Common

  type Tag = t: nat | t < 16

  const CAPACITY: nat := 16

  /** The word that holds `tags`. */
  function Pack(tags: seq<Tag>): nat {
    if tags == [] then 0 else tags[0] + 16 * Pack(tags[1..])
  }

  /** `w >> 4 * i`, `v << 4 * i`, `(w >> 4 * i) & 0xF`, and `w` cut to its `i` lowest nibbles. */
  function ShiftRight(w: nat, i: nat): nat { if i == 0 then w else ShiftRight(w / 16, i - 1) }
  function ShiftLeft(v: nat, i: nat): nat { if i == 0 then v else 16 * ShiftLeft(v, i - 1) }
  function Nibble(w: nat, i: nat): Tag { if i == 0 then w % 16 else Nibble(w / 16, i - 1) }
  function Low(w: nat, i: nat): nat { if i == 0 then 0 else w % 16 + 16 * Low(w / 16, i - 1) }

  function OrNibble(a: Tag, b: Tag): Tag { ((a as bv4) | (b as bv4)) as nat }

  /** Bitwise or, nibble by nibble. */
  function Or(a: nat, b: nat): nat
    decreases a
  {
    if a == 0 then b else OrNibble(a % 16, b % 16) + 16 * Or(a / 16, b / 16)
  }

  /** A packed word of at most sixteen tags fits its 64 bits. */
  lemma {:induction false} PackFits(tags: seq<Tag>)
    ensures Pack(tags) < ShiftLeft(1, |tags|)
  {
    if tags != [] {
      PackFits(tags[1..]);
    }
  }

  lemma {:induction false} PackCons(tags: seq<Tag>)
    requires tags != []
    ensures Pack(tags) % 16 == tags[0] && Pack(tags) / 16 == Pack(tags[1..])
  {
  }

  lemma PackPrepend(tags: seq<Tag>, rest: seq<Tag>, whole: seq<Tag>)
    requires tags != [] && whole == [tags[0]] + rest
    ensures Pack(whole) == tags[0] + 16 * Pack(rest)
  {
  }

  /** Nibble `i` reads element `i`; beyond the count the word reads zero. */
  lemma {:induction false} NibbleReads(tags: seq<Tag>, i: nat)
    ensures Nibble(Pack(tags), i) == if i < |tags| then tags[i] else 0
    decreases i
  {
    if tags == [] {
      ZeroNibble(i);
    } else {
      PackCons(tags);
      if i > 0 {
        NibbleReads(tags[1..], i - 1);
      }
    }
  }

  lemma {:induction false} ZeroNibble(i: nat)
    ensures Nibble(0, i) == 0 && ShiftRight(0, i) == 0 && Low(0, i) == 0
  {
    if i > 0 {
      ZeroNibble(i - 1);
    }
  }

  lemma OrZero(a: Tag)
    ensures OrNibble(a, 0) == a && OrNibble(0, a) == a
  {
  }

  /** Insertion: `w |= tag << 4 * count` appends the tag. */
  lemma {:induction false} InsertAppends(tags: seq<Tag>, t: Tag)
    ensures Or(Pack(tags), ShiftLeft(t, |tags|)) == Pack(tags + [t])
  {
    if tags == [] {
      assert Pack([t][1..]) == 0;
      assert ([] + [t]) == [t];
    } else {
      PackCons(tags);
      InsertAppends(tags[1..], t);
      assert (tags + [t])[1..] == tags[1..] + [t];
      var v := ShiftLeft(t, |tags| - 1);
      assert ShiftLeft(t, |tags|) == 16 * v;
      OrZero(tags[0]);
      if Pack(tags) == 0 {
        assert Or(Pack(tags[1..]), v) == v;
      } else {
        assert (16 * v) % 16 == 0 && (16 * v) / 16 == v;
      }
    }
  }

  /** Removal at nibble `i`: the lower part stays, the higher part moves down one nibble over the gap. */
  function CloseGap(w: nat, i: nat): nat {
    Or(Low(w, i), ShiftLeft(ShiftRight(w, i + 1), i))
  }

  lemma {:induction false} CloseGapRemoves(tags: seq<Tag>, i: nat)
    requires i < |tags|
    ensures CloseGap(Pack(tags), i) == Pack(Without(tags, i))
  {
    PackCons(tags);
    if i == 0 {
      assert Without(tags, 0) == tags[1..];
      assert ShiftRight(Pack(tags), 1) == ShiftRight(Pack(tags) / 16, 0);
    } else {
      var rest := tags[1..];
      CloseGapRemoves(rest, i - 1);
      assert Without(tags, i) == [tags[0]] + Without(rest, i - 1);
      PackPrepend(tags, Without(rest, i - 1), Without(tags, i));
      var low, high := Low(Pack(rest), i - 1), ShiftLeft(ShiftRight(Pack(rest), i), i - 1);
      assert Low(Pack(tags), i) == tags[0] + 16 * low;
      assert ShiftLeft(ShiftRight(Pack(tags), i + 1), i) == 16 * high;
      OrShifted(tags[0], low, high);
    }
  }

  lemma OrShifted(t: Tag, low: nat, high: nat)
    ensures Or(t + 16 * low, 16 * high) == t + 16 * Or(low, high)
  {
  }

  /** The tags without the first one equal to `flag`. */
  function RemoveFirst(tags: seq<Tag>, flag: Tag): seq<Tag> {
    if tags == [] then [] else if tags[0] == flag then tags[1..] else [tags[0]] + RemoveFirst(tags[1..], flag)
  }

  lemma {:induction false} RemoveFirstAt(tags: seq<Tag>, flag: Tag, i: nat)
    requires i < |tags| && tags[i] == flag && forall j :: 0 <= j < i ==> tags[j] != flag
    ensures RemoveFirst(tags, flag) == Without(tags, i)
  {
    if i > 0 {
      RemoveFirstAt(tags[1..], flag, i - 1);
      assert Without(tags, i) == [tags[0]] + Without(tags[1..], i - 1);
    }
  }

  lemma {:induction false} RemoveFirstAbsent(tags: seq<Tag>, flag: Tag)
    requires flag !in tags
    ensures RemoveFirst(tags, flag) == tags
  {
    if tags != [] {
      RemoveFirstAbsent(tags[1..], flag);
    }
  }

  /** Removing a tag takes one occurrence of it and nothing else. */
  lemma {:induction false} RemoveFirstCounts(tags: seq<Tag>, flag: Tag)
    requires flag in tags
    ensures multiset(RemoveFirst(tags, flag)) == multiset(tags) - multiset{flag}
    ensures |RemoveFirst(tags, flag)| == |tags| - 1
  {
    assert tags == [tags[0]] + tags[1..];
    if tags[0] != flag {
      RemoveFirstCounts(tags[1..], flag);
    }
  }

  /**
   `free_flag_preiph` as its comments describe it: the first matching nibble below the count is cut out, the gap is
   closed, and the count goes down.  (Nibbles beyond the count read 0, which is also the mini-UART's tag.)
   */
  method FreeFlag(w: nat, count: nat, flag: Tag, ghost tags: seq<Tag>) returns (w': nat, count': nat)
    requires w == Pack(tags) && count == |tags| <= CAPACITY
    ensures w' == Pack(RemoveFirst(tags, flag)) && count' == |RemoveFirst(tags, flag)|
  {
    var i := 0;
    while i < count
      invariant i <= count && forall j :: 0 <= j < i ==> tags[j] != flag
    {
      NibbleReads(tags, i);
      if Nibble(w, i) == flag {
        CloseGapRemoves(tags, i);
        RemoveFirstAt(tags, flag, i);
        return CloseGap(w, i), count - 1;
      }
      i := i + 1;
    }
    RemoveFirstAbsent(tags, flag);
    w', count' := w, count;
  }

  /** `svc_mutex_gain`'s insertion (lines 489-497): refused at sixteen tags. */
  method Insert(w: nat, count: nat, flag: Tag, ghost tags: seq<Tag>) returns (inserted: bool, w': nat, count': nat)
    requires w == Pack(tags) && count == |tags| <= CAPACITY
    ensures inserted <==> count < CAPACITY
    ensures inserted ==> w' == Pack(tags + [flag]) && count' == |tags| + 1
    ensures !inserted ==> w' == w && count' == count
  {
    if count >= CAPACITY {
      return false, w, count;
    }
    InsertAppends(tags, flag);
    inserted, w', count' := true, Or(w, ShiftLeft(flag, count)), count + 1;
  }

  /* ---------------------------------------------------------------- as written */

  /**
   Line 11 as written: `==` binds tighter than `&`, so the test is `(w >> 4 * i) & (0xF == flag) & 0xF`, the lowest
   bit of the nibble when the flag is 15 and zero otherwise.
   */
  function TestAsWritten(w: nat, i: nat, flag: Tag): nat {
    ShiftRight(w, i) % (if flag == 15 then 2 else 1)
  }

  /** None of the ten defined tags is ever matched, so as written `free_flag_preiph` frees nothing. */
  lemma FreeFlagAsWrittenFreesNothing(w: nat, i: nat, flag: Tag)
    requires flag <= 9
    ensures TestAsWritten(w, i, flag) == 0
  {
  }

  const GPIO_TAG: Tag := 7
  const MAILBOX_TAG: Tag := 9  // the tag lines 495 and 524 insert where a software lock's, 8, is meant

  /** `svc_gpalloc` (line 230) as written: the tag goes into the nibble at the count, which is not incremented. */
  function GpallocAsWritten(w: nat, count: nat): nat { Or(w, ShiftLeft(GPIO_TAG, count)) }

  /**
   So the next tag is merged into the same nibble, which then names what it should exactly for the tags 7 and 15: a GPIO
   allocation followed by a mutex gain leaves the tag 15, which names none of the ten release routines.
   */
  lemma GpallocAsWrittenSpoilsTheNextTag(tags: seq<Tag>, t: Tag)
    ensures
      var w := Or(GpallocAsWritten(Pack(tags), |tags|), ShiftLeft(t, |tags|));
      && w == Pack(tags + [OrNibble(GPIO_TAG, t)])
      && (Nibble(w, |tags|) == t <==> t == 7 || t == 15)
    ensures OrNibble(GPIO_TAG, MAILBOX_TAG) == 15
  {
    InsertAppends(tags, GPIO_TAG);
    OrDigits(GPIO_TAG, t);
    MergeLast(tags, GPIO_TAG, t, OrNibble(GPIO_TAG, t));
    NibbleReads(tags + [OrNibble(GPIO_TAG, t)], |tags|);
    OrSeven(t);
  }

  lemma OrSeven(t: Tag)
    ensures OrNibble(7, t) == t <==> t == 7 || t == 15
    ensures OrNibble(7, 9) == 15
  {
    var b := t as bv4;
    assert 7 | b == b <==> b == 7 || b == 15;
    assert 7 as bv4 | 9 as bv4 == 15 as bv4;
  }

  lemma OrDigits(a: Tag, b: Tag)
    ensures Or(a, b) == OrNibble(a, b)
  {
    OrZero(b);
    if a != 0 {
      assert Or(a / 16, b / 16) == 0;
    }
  }

  lemma {:induction false} MergeLast(tags: seq<Tag>, a: Tag, b: Tag, c: Tag)
    requires Or(a, b) == c
    ensures Or(Pack(tags + [a]), ShiftLeft(b, |tags|)) == Pack(tags + [c])
  {
    if tags == [] {
      assert tags + [a] == [a] && tags + [c] == [c];
      assert [a][1..] == [] && [c][1..] == [];
    } else {
      var rest := tags[1..];
      var p, h, q := Pack(rest + [a]), ShiftLeft(b, |rest|), Pack(rest + [c]);
      assert Or(p, h) == q by { MergeLast(rest, a, b, c); }
      assert Pack(tags + [a]) == tags[0] + 16 * p by { PackPrepend(tags, rest + [a], tags + [a]); }
      assert Pack(tags + [c]) == tags[0] + 16 * q by { PackPrepend(tags, rest + [c], tags + [c]); }
      assert ShiftLeft(b, |tags|) == 16 * h;
      OrShifted(tags[0], p, h);
    }
  }

  /** Line 141 of `terminate_context` reads the nibble at the count for every tag: always padding, never a tag. */
  lemma ReplayAsWrittenReadsPadding(tags: seq<Tag>)
    ensures Nibble(Pack(tags), |tags|) == 0
  {
    NibbleReads(tags, |tags|);
  }
}
