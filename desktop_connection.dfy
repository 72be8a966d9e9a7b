/**
 * Naming of the abstract local socket the server and the desktop client meet
 * on (`DesktopConnection.getSocketName`).
 */
module DesktopConnection {
  import opened JavaNumbers

  const SocketNamePrefix: string := "framex"

  /** `scid` as `%x` prints an `int`: its 32-bit two's complement read as unsigned. */
  function Unsigned32(v: int): (u: nat)
    requires InIntRange(v)
    ensures u < 0x1_0000_0000
    ensures (u - v) % 0x1_0000_0000 == 0
  {
    if v < 0 then v + 0x1_0000_0000 else v
  }

  lemma Pow16Eight()
    ensures Pow16(8) == 0x1_0000_0000
  {
  }

  /**
   * `getSocketName(scid)`: the bare prefix when there is no connection id (-1),
   * otherwise the prefix, '_' and the id as eight zero-padded lower-case hex digits.
   */
  function SocketName(scid: int): (name: string)
    requires InIntRange(scid)
    ensures scid == -1 ==> name == SocketNamePrefix
    ensures scid != -1 ==> |name| == 15 && name[..7] == SocketNamePrefix + "_"
    ensures |name| >= 6 && name[..6] == SocketNamePrefix
  {
    if scid == -1 then SocketNamePrefix
    else SocketNamePrefix + "_" + HexDigits(Unsigned32(scid), 8)
  }

  /** The eight chars after "framex_" are hex digits that read back as the id's unsigned value. */
  lemma SocketNameSuffix(scid: int)
    requires InIntRange(scid) && scid != -1
    ensures AllDigits(SocketName(scid)[7..], 16)
    ensures DigitsValue(SocketName(scid)[7..], 16) == Unsigned32(scid)
    ensures 0 <= scid ==> DigitsValue(SocketName(scid)[7..], 16) == scid
  {
    var name := SocketName(scid);
    assert name[7..] == HexDigits(Unsigned32(scid), 8);
    Pow16Eight();
    HexDigitsValue(Unsigned32(scid), 8);
  }

  /** Distinct ids, -1 included, never share a socket name. */
  lemma SocketNameInjective(a: int, b: int)
    requires InIntRange(a) && InIntRange(b)
    requires SocketName(a) == SocketName(b)
    ensures a == b
  {
    if a != -1 && b != -1 {
      SocketNameSuffix(a);
      SocketNameSuffix(b);
      assert Unsigned32(a) == Unsigned32(b);
    }
  }
}
