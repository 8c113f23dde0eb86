/**
  The set of file-system events collected between two builds
  (monitor/EventChangeset.go): each (kind, path) pair is kept once, and an
  event carrying more than one kind is refused.

  A notify event is a bit set held in an unsigned 32-bit word; here it is a
  `nat`. The four kinds get distinct single-bit values; their exact numbers
  belong to the notify library.
 */
module EventChangesets {
  import opened GoStrings

  /** notify.Create, notify.Remove, notify.Write, notify.Rename: bits 20 to 23. */
  const Create: nat := 0x10_0000
  const Remove: nat := 0x20_0000
  const Write: nat := 0x40_0000
  const Rename: nat := 0x80_0000

  /** One file-level change (monitor/Event.go). */
  datatype Event = Event(path: string, event: nat)

  /** The bitwise AND of two non-negative numbers. */
  function And(a: nat, b: nat): nat
    decreases a
  {
    if a == 0 || b == 0 then 0
    else 2 * And(a / 2, b / 2) + (if a % 2 == 1 && b % 2 == 1 then 1 else 0)
  }

  /** The number of set bits. */
  function BitCount(n: nat): nat {
    if n == 0 then 0 else BitCount(n / 2) + n % 2
  }

  /**
    isCompositeEvent: (n-1) & n clears the lowest set bit, so it is
    positive exactly when another bit is set. For n = 0, Go computes
    -1 & 0 = 0.
   */
  predicate IsCompositeEvent(n: nat) {
    n != 0 && And(n - 1, n) > 0
  }

  /** eventToString: one letter per known kind, "?" for anything else. */
  function EventToString(e: nat): (r: string)
    ensures |r| == 1
    ensures r != "?" <==> e in {Create, Write, Remove, Rename}
  {
    if e == Create then "C"
    else if e == Write then "W"
    else if e == Remove then "D"
    else if e == Rename then "M"
    else "?"
  }

  /** makeEventKey: the kind's letter, a colon, then the path. */
  function MakeEventKey(e: nat, path: string): (r: string)
    ensures |r| == |path| + 2 && r[1] == ':'
    ensures r[..1] == EventToString(e) && r[2..] == path
  {
    EventToString(e) + ":" + path
  }

  /** Two keys are equal exactly when the kinds print alike and the paths are equal. */
  lemma KeyInjective(e1: nat, p1: string, e2: nat, p2: string)
    ensures MakeEventKey(e1, p1) == MakeEventKey(e2, p2) <==> EventToString(e1) == EventToString(e2) && p1 == p2
  {
    var k1, k2 := MakeEventKey(e1, p1), MakeEventKey(e2, p2);
    if k1 == k2 {
      assert k1[..1] == k2[..1] && k1[2..] == k2[2..];
    }
  }

  /** The four known kinds print as four different letters. */
  lemma KnownKindsDistinct(e1: nat, e2: nat)
    requires e1 in {Create, Write, Remove, Rename} && e2 in {Create, Write, Remove, Rename}
    ensures EventToString(e1) == EventToString(e2) <==> e1 == e2
  {
  }

  /** AND of a number with itself is the number. */
  lemma {:induction false} AndSelf(m: nat)
    ensures And(m, m) == m
  {
    if m != 0 {
      AndSelf(m / 2);
    }
  }

  /** Only zero has no set bit. */
  lemma {:induction false} BitCountZero(m: nat)
    ensures BitCount(m) == 0 <==> m == 0
  {
    if m != 0 {
      if m % 2 == 0 {
        BitCountZero(m / 2);
      }
    }
  }

  /** isCompositeEvent holds exactly for the numbers with at least two set bits. */
  lemma {:induction false} CompositeIffTwoBits(n: nat)
    ensures IsCompositeEvent(n) <==> BitCount(n) >= 2
  {
    if n != 0 {
      var m := n / 2;
      if n % 2 == 0 {
        // n = 2m, n - 1 = 2m - 1: the low bits differ and the rest is (m - 1) & m.
        assert (n - 1) / 2 == m - 1 && (n - 1) % 2 == 1;
        assert And(n - 1, n) == 2 * And(m - 1, m);
        CompositeIffTwoBits(m);
      } else {
        // n = 2m + 1, n - 1 = 2m: the AND is 2 * (m & m) = 2m.
        BitCountZero(m);
        if m != 0 {
          assert (n - 1) / 2 == m && (n - 1) % 2 == 0;
          AndSelf(m);
          assert And(n - 1, n) == 2 * m;
        }
      }
    }
  }

  /** m shifted left by k bits. */
  function Shl(m: nat, k: nat): nat {
    if k == 0 then m else 2 * Shl(m, k - 1)
  }

  /** 2 to the power k. */
  function Pow2(k: nat): nat {
    Shl(1, k)
  }

  /** Shifting left adds no set bit. */
  lemma {:induction false} BitCountShifted(m: nat, k: nat)
    ensures BitCount(Shl(m, k)) == BitCount(m)
  {
    if k != 0 {
      BitCountShifted(m, k - 1);
      if Shl(m, k - 1) != 0 {
        assert Shl(m, k) / 2 == Shl(m, k - 1) && Shl(m, k) % 2 == 0;
      }
    }
  }

  /** Shifting distributes over addition. */
  lemma {:induction false} ShlPlus(a: nat, b: nat, k: nat)
    ensures Shl(a + b, k) == Shl(a, k) + Shl(b, k)
  {
    if k != 0 {
      ShlPlus(a, b, k - 1);
    }
  }

  /** Two shifts in a row are one shift by the sum. */
  lemma {:induction false} ShlShl(m: nat, i: nat, j: nat)
    ensures Shl(Shl(m, i), j) == Shl(m, i + j)
  {
    if j != 0 {
      ShlShl(m, i, j - 1);
    }
  }

  /** An event of a single kind is not composite. */
  lemma SingleBitNotComposite(k: nat)
    ensures !IsCompositeEvent(Pow2(k))
  {
    BitCountShifted(1, k);
    CompositeIffTwoBits(Pow2(k));
  }

  /** One more than a power of two above 1 has two set bits. */
  lemma BitCountOnePlus(i: nat)
    requires i >= 1
    ensures BitCount(1 + Pow2(i)) == 2
  {
    var m := 1 + Pow2(i);
    assert m / 2 == Pow2(i - 1) && m % 2 == 1;
    BitCountShifted(1, i - 1);
  }

  /** An event of two different kinds is composite. */
  lemma TwoBitsComposite(j: nat, k: nat)
    requires j < k
    ensures IsCompositeEvent(Pow2(j) + Pow2(k))
  {
    var i := k - j;
    ShlPlus(1, Pow2(i), j);
    ShlShl(1, i, j);
    assert Shl(1 + Pow2(i), j) == Pow2(j) + Pow2(k);
    BitCountShifted(1 + Pow2(i), j);
    BitCountOnePlus(i);
    CompositeIffTwoBits(Pow2(j) + Pow2(k));
  }

  /** The numeric examples of the event tests. */
  lemma CompositeVectors()
    ensures IsCompositeEvent(3) && IsCompositeEvent(17) && IsCompositeEvent(2052)
    ensures !IsCompositeEvent(0) && !IsCompositeEvent(1) && !IsCompositeEvent(2) && !IsCompositeEvent(2048)
  {
  }

  /** The kinds are the powers of two 20 to 23. */
  lemma KindBits()
    ensures Create == Pow2(20) && Remove == Pow2(21) && Write == Pow2(22) && Rename == Pow2(23)
  {
    ShlShl(1, 10, 10);
    ShlShl(1, 20, 1);
    ShlShl(1, 20, 2);
    ShlShl(1, 20, 3);
  }

  /** Create alone is not composite; Create together with Write is. */
  lemma KindVectors(create: nat, write: nat)
    requires create == Create && write == Write
    ensures !IsCompositeEvent(create) && IsCompositeEvent(create + write)
  {
    KindBits();
    SingleBitNotComposite(20);
    TwoBitsComposite(20, 22);
  }

  class EventChangeset {
    /** The events collected so far, under their keys. */
    var changeIndex: map<string, Event>

    /** Every event sits under its own key and carries a single kind. */
    ghost predicate Valid()
      reads this
    {
      forall k :: k in changeIndex ==>
        && k == MakeEventKey(changeIndex[k].event, changeIndex[k].path)
        && !IsCompositeEvent(changeIndex[k].event)
    }

    /** NewEventChangeset: nothing collected. */
    constructor ()
      ensures Valid()
      ensures changeIndex == map[]
    {
      changeIndex := map[];
    }

    /**
      Add: a composite event, or one whose key is already present, is
      refused and changes nothing; otherwise it is stored under its key.
     */
    method Add(event: nat, path: string) returns (added: bool)
      requires Valid()
      modifies this
      ensures Valid()
      ensures added <==> !IsCompositeEvent(event) && MakeEventKey(event, path) !in old(changeIndex)
      ensures added ==> changeIndex == old(changeIndex)[MakeEventKey(event, path) := Event(path, event)]
      ensures !added ==> changeIndex == old(changeIndex)
    {
      if IsCompositeEvent(event) {
        return false;
      }
      var key := MakeEventKey(event, path);
      if key !in changeIndex {
        changeIndex := changeIndex[key := Event(path, event)];
        return true;
      }
      return false;
    }

    /** count */
    function Count(): (r: nat)
      reads this
      ensures r == |changeIndex.Keys|
    {
      |changeIndex|
    }

    /** nonEmpty */
    predicate NonEmpty()
      reads this
      ensures NonEmpty() <==> changeIndex != map[]
    {
      Count() > 0
    }
  }

  /**
    A stored event is found again under the key of its kind and path, so
    the changeset holds at most one event per printed kind and path.
   */
  lemma StoredUnderOwnKey(index: map<string, Event>, e: nat, path: string)
    requires forall k :: k in index ==> k == MakeEventKey(index[k].event, index[k].path)
    requires exists k :: k in index && EventToString(index[k].event) == EventToString(e) && index[k].path == path
    ensures MakeEventKey(e, path) in index
  {
    var k :| k in index && EventToString(index[k].event) == EventToString(e) && index[k].path == path;
    KeyInjective(index[k].event, index[k].path, e, path);
  }

  /** The add tests: a single kind is accepted, the same pair again and a composite are refused. */
  method AddVector(path: string) returns (first: bool, again: bool, composite: bool, size: nat)
    ensures first && !again && !composite && size == 1
  {
    var changes := new EventChangeset();
    var create, write := Create, Write;
    KindVectors(create, write);
    first := changes.Add(create, path);
    again := changes.Add(create, path);
    composite := changes.Add(create + write, path);
    size := changes.Count();
  }

  /** makeEventKey(Create, "abcd") is "C:abcd". */
  lemma EventKeyVector()
    ensures MakeEventKey(Create, "abcd") == "C:abcd"
  {
  }
}
