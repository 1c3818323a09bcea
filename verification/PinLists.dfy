/** Vectors whose entries are found, appended and erased by relay pin. */
module PinLists {
  import opened Common

  function Pins<T>(pinOf: T -> Byte, s: seq<T>): (pins: seq<Byte>)
    ensures |pins| == |s| && forall i | 0 <= i < |s| :: pins[i] == pinOf(s[i])
  {
    seq(|s|, i requires 0 <= i < |s| => pinOf(s[i]))
  }

  ghost predicate DistinctPins<T>(pinOf: T -> Byte, s: seq<T>) {
    forall i, j | 0 <= i < j < |s| :: pinOf(s[i]) != pinOf(s[j])
  }

  predicate HasPin<T>(pinOf: T -> Byte, s: seq<T>, pin: Byte) {
    exists i | 0 <= i < |s| :: pinOf(s[i]) == pin
  }

  function ErasePin<T>(pinOf: T -> Byte, s: seq<T>, pin: Byte): seq<T> {
    var k := IndexBy(pinOf, s, pin);
    if k < |s| then s[..k] + s[k + 1..] else s
  }

  /** Erasing by pin removes that entry and nothing else. */
  lemma ErasePinMembers<T>(pinOf: T -> Byte, s: seq<T>, pin: Byte)
    requires DistinctPins(pinOf, s)
    ensures forall x :: x in ErasePin(pinOf, s, pin) <==> x in s && pinOf(x) != pin
  {
    var k := IndexBy(pinOf, s, pin);
    if k < |s| {
      assert s == s[..k] + [s[k]] + s[k + 1..];
      forall x | x in s[..k] || x in s[k + 1..] ensures pinOf(x) != pin {}
    }
  }

  lemma ErasePinDistinct<T>(pinOf: T -> Byte, s: seq<T>, pin: Byte)
    requires DistinctPins(pinOf, s)
    ensures DistinctPins(pinOf, ErasePin(pinOf, s, pin))
    ensures !HasPin(pinOf, ErasePin(pinOf, s, pin), pin)
  {
    ErasePinMembers(pinOf, s, pin);
    var r := ErasePin(pinOf, s, pin);
    var k := IndexBy(pinOf, s, pin);
    if k < |s| {
      assert |r| == |s| - 1 && forall i | 0 <= i < |r| :: r[i] == s[if i < k then i else i + 1];
    }
    forall i | 0 <= i < |r| ensures pinOf(r[i]) != pin { assert r[i] in r; }
  }

  /** Appending an entry with a new pin and erasing it again restores the vector. */
  lemma EraseAppended<T>(pinOf: T -> Byte, s: seq<T>, x: T)
    requires !HasPin(pinOf, s, pinOf(x))
    ensures ErasePin(pinOf, s + [x], pinOf(x)) == s
  {
    var k := IndexBy(pinOf, s + [x], pinOf(x));
    assert (s + [x])[|s|] == x;
    assert forall i | 0 <= i < |s| :: (s + [x])[i] == s[i];
    assert k == |s|;
  }

  function ErasePins<T>(pinOf: T -> Byte, s: seq<T>, pins: seq<Byte>): seq<T> {
    if pins == [] then s
    else ErasePin(pinOf, ErasePins(pinOf, s, pins[..|pins| - 1]), pins[|pins| - 1])
  }

  /** Erasing one entry after the other, front first. */
  lemma {:induction false} ErasePinsFront<T>(pinOf: T -> Byte, s: seq<T>, pins: seq<Byte>)
    requires pins != []
    ensures ErasePins(pinOf, s, pins) == ErasePins(pinOf, ErasePin(pinOf, s, pins[0]), pins[1..])
  {
    var init, rest := pins[..|pins| - 1], pins[1..];
    if |pins| > 1 {
      ErasePinsFront(pinOf, s, init);
      assert rest[..|rest| - 1] == init[1..] && rest[|rest| - 1] == pins[|pins| - 1] && init[0] == pins[0];
    } else {
      assert init == [] && rest == [];
    }
  }

  lemma EraseInside<T>(pinOf: T -> Byte, s: seq<T>, x: T, t: seq<T>)
    requires !HasPin(pinOf, s, pinOf(x))
    ensures ErasePin(pinOf, s + [x] + t, pinOf(x)) == s + t
  {
    var all := s + [x] + t;
    var k := IndexBy(pinOf, all, pinOf(x));
    assert all[|s|] == x && HasPin(pinOf, all, pinOf(x));
    assert forall i | 0 <= i < |s| :: all[i] == s[i];
    assert k == |s| && all[..k] == s && all[k + 1..] == t;
  }

  /** Undoing a batch of appended entries, in the order they were appended, restores the vector. */
  lemma {:induction false} EraseAppendedAll<T>(pinOf: T -> Byte, s: seq<T>, added: seq<T>)
    requires forall i | 0 <= i < |added| :: !HasPin(pinOf, s, pinOf(added[i]))
    ensures ErasePins(pinOf, s + added, Pins(pinOf, added)) == s
  {
    if added == [] {
      assert s + added == s;
    } else {
      assert s + added == s + [added[0]] + added[1..];
      EraseInside(pinOf, s, added[0], added[1..]);
      ErasePinsFront(pinOf, s + added, Pins(pinOf, added));
      assert Pins(pinOf, added)[1..] == Pins(pinOf, added[1..]);
      EraseAppendedAll(pinOf, s, added[1..]);
    }
  }
}
