/** Values every part of the firmware shares. */
module Common {

  datatype Option<+T> = None | Some(value: T)

  type Byte = b: nat | b < 0x100

  type Word = w: nat | w < 0x1_0000

  const COMMAND_IDS: nat := 0x1_0000_0000

  /** Identifiers of commands are 32-bit numbers. */
  type CommandId = w: nat | w < COMMAND_IDS

  /** The six-byte hardware address that names a Node. */
  datatype MacAddress = MacAddress(b0: Byte, b1: Byte, b2: Byte, b3: Byte, b4: Byte, b5: Byte)

  /** The position of the first entry with this key, or the length. */
  function IndexBy<T, K(==)>(keyOf: T -> K, s: seq<T>, key: K): (k: nat)
    ensures k <= |s|
    ensures k < |s| ==> keyOf(s[k]) == key
    ensures forall i | 0 <= i < k :: keyOf(s[i]) != key
  {
    if s == [] || keyOf(s[0]) == key then 0
    else
      var k := IndexBy(keyOf, s[1..], key);
      assert forall i | 0 < i < |s| :: s[i] == s[1..][i - 1];
      k + 1
  }

  ghost predicate NoRepeats<T>(s: seq<T>) {
    forall i, j | 0 <= i < j < |s| :: s[i] != s[j]
  }

  const ZERO_MAC := MacAddress(0, 0, 0, 0, 0, 0)
}
