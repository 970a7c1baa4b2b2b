/**
 * The de-duplication key of an alert: the track id in decimal, a dash, and
 * the event type's name, as the f-string "{track_id}-{type}" builds it.
 */
module AlertKeys {

  import opened EventManager

  /** The decimal digit character for 0..9. */
  function DigitChar(d: nat): (c: char)
    requires d < 10
    ensures '0' <= c <= '9'
  {
    ('0' as int + d) as char
  }

  /** Python's `str(n)` for a natural number: decimal, no leading zeros. */
  function NatToString(n: nat): (s: string)
    ensures |s| >= 1
    decreases n
  {
    if n < 10 then [DigitChar(n)] else NatToString(n / 10) + [DigitChar(n % 10)]
  }

  /** The spelling of a number is all digits, and a single digit exactly for numbers below ten. */
  lemma {:induction false} NatToStringDigits(n: nat)
    ensures var s := NatToString(n);
            && (|s| == 1 <==> n < 10)
            && forall i :: 0 <= i < |s| ==> '0' <= s[i] <= '9'
    decreases n
  {
    if n >= 10 {
      NatToStringDigits(n / 10);
    }
  }

  /** Python's `str(i)` for an integer: a minus sign before the magnitude when negative. */
  function IntToString(i: int): (s: string)
    ensures |s| >= 1
  {
    if i < 0 then "-" + NatToString(-i) else NatToString(i)
  }

  /** A spelling starts with a minus sign exactly for negative integers. */
  lemma IntToStringSign(i: int)
    ensures IntToString(i)[0] == '-' <==> i < 0
  {
    if i >= 0 {
      NatToStringDigits(i);
    }
  }

  /** The key under which an event of `kind` for track `trackId` is de-duplicated. */
  function EventKey(trackId: int, kind: EventType): string
  {
    IntToString(trackId) + "-" + kind.Name()
  }

  /** Different numbers have different decimal spellings. */
  lemma {:induction false} NatToStringInjective(a: nat, b: nat)
    requires NatToString(a) == NatToString(b)
    ensures a == b
    decreases a
  {
    var sa, sb := NatToString(a), NatToString(b);
    NatToStringDigits(a);
    NatToStringDigits(b);
    if a >= 10 {
      assert b >= 10;
      assert sa[|sa| - 1] == sb[|sb| - 1];
      assert DigitChar(a % 10) == DigitChar(b % 10);
      assert NatToString(a / 10) == sa[..|sa| - 1] == sb[..|sb| - 1] == NatToString(b / 10);
      NatToStringInjective(a / 10, b / 10);
    } else {
      assert DigitChar(a) == sa[0] == sb[0] == DigitChar(b);
    }
  }

  /** Different integers have different spellings. */
  lemma IntToStringInjective(a: int, b: int)
    requires IntToString(a) == IntToString(b)
    ensures a == b
  {
    var sa := IntToString(a);
    IntToStringSign(a);
    IntToStringSign(b);
    if a < 0 {
      assert NatToString(-a) == sa[1..] == NatToString(-b);
      NatToStringInjective(-a, -b);
    } else {
      NatToStringInjective(a, b);
    }
  }

  /**
   * Two alerts share a key exactly when they have the same track id and the
   * same event type. In particular all unresolved tracks (id -1) share one
   * key per event type.
   */
  lemma EventKeyInjective(id1: int, k1: EventType, id2: int, k2: EventType)
    ensures EventKey(id1, k1) == EventKey(id2, k2) <==> id1 == id2 && k1 == k2
  {
    if EventKey(id1, k1) == EventKey(id2, k2) {
      var key := EventKey(id1, k1);
      // the type names end in different letters, so the last letter fixes the type
      assert key[|key| - 1] == k1.Name()[|k1.Name()| - 1] == k2.Name()[|k2.Name()| - 1];
      assert k1 == k2;
      var prefixLen := |key| - |k1.Name()| - 1;
      assert IntToString(id1) == key[..prefixLen] == IntToString(id2);
      IntToStringInjective(id1, id2);
    }
  }
}
