/**
 Identifiers.  Node, workspace and session ids are a letter prefix followed by
 a counter printed in decimal; a reloaded desktop reads the counters back out of
 them with a scanf-style reader that ignores whatever follows the digits.
 */
module Ids {
  import opened Wrappers

  type NodeID = string

  const NODE_PREFIX: string := "n"
  const WORKSPACE_PREFIX: string := "ws"
  const SESSION_PREFIX: string := "s"

  function Decimal(k: nat): string {
    if k < 10 then [DigitChar(k)] else Decimal(k / 10) + [DigitChar(k % 10)]
  }

  function DigitChar(d: nat): char
    requires d < 10
  {
    ('0' as int + d) as char
  }

  /** The k-th id a node counter mints. */
  function NodeName(k: nat): NodeID { NODE_PREFIX + Decimal(k) }

  function WorkspaceName(k: nat): string { WORKSPACE_PREFIX + Decimal(k) }

  function SessionName(k: nat): string { SESSION_PREFIX + Decimal(k) }

  predicate IsDigit(c: char) { '0' <= c <= '9' }

  /** Reads digits from the left of s, on top of the digits already in acc. */
  function ReadDigits(s: string, acc: nat): nat {
    if s != [] && IsDigit(s[0]) then ReadDigits(s[1..], acc * 10 + (s[0] as int - '0' as int)) else acc
  }

  /** prefix, an optional sign, at least one digit; anything after that is ignored. */
  function ScanNumber(prefix: string, s: string): Option<int> {
    if !(prefix <= s) then None
    else
      var rest := s[|prefix|..];
      var signed := rest != [] && (rest[0] == '-' || rest[0] == '+');
      var digits := if signed then rest[1..] else rest;
      if digits == [] || !IsDigit(digits[0]) then None
      else
        var value: int := ReadDigits(digits, 0);
        Some(if rest[0] == '-' then -value else value)
  }

  lemma {:induction false} ReadDecimal(k: nat, tail: string)
    ensures Decimal(k) != [] && IsDigit(Decimal(k)[0])
    ensures ReadDigits(Decimal(k) + tail, 0) == ReadDigits(tail, k)
  {
    if k < 10 {
      assert (Decimal(k) + tail)[1..] == tail;
    } else {
      var last := [DigitChar(k % 10)];
      ReadDecimal(k / 10, last + tail);
      assert Decimal(k) + tail == Decimal(k / 10) + (last + tail);
      assert (last + tail)[1..] == tail;
    }
  }

  /** Reading a printed id gives back the counter it was printed from. */
  lemma {:induction false} ScanPrinted(prefix: string, k: nat)
    ensures ScanNumber(prefix, prefix + Decimal(k)) == Some(k)
  {
    ReadDecimal(k, []);
    assert (prefix + Decimal(k))[|prefix|..] == Decimal(k);
    assert Decimal(k) + [] == Decimal(k);
  }

  /** So does one with a sign before the digits, or with anything but a digit after them. */
  lemma {:induction false} ScanSigned(prefix: string, k: nat, tail: string)
    requires tail == "" || !IsDigit(tail[0])
    ensures ScanNumber(prefix, prefix + Decimal(k) + tail) == Some(k)
    ensures ScanNumber(prefix, prefix + "+" + Decimal(k) + tail) == Some(k as int)
    ensures ScanNumber(prefix, prefix + "-" + Decimal(k) + tail) == Some(0 - k as int)
    ensures ScanNumber(prefix, prefix) == None
  {
    hide Decimal;
    ReadDecimal(k, tail);
    var digits := Decimal(k) + tail;
    assert (prefix + Decimal(k) + tail)[|prefix|..] == digits;
    assert (prefix + "+" + Decimal(k) + tail)[|prefix|..] == "+" + digits && ("+" + digits)[1..] == digits;
    assert (prefix + "-" + Decimal(k) + tail)[|prefix|..] == "-" + digits && ("-" + digits)[1..] == digits;
    assert digits[0] == Decimal(k)[0];
  }

  /** Hence a prefix and two different counters never print alike. */
  lemma {:induction false} PrintedIdsDiffer(prefix: string, j: nat, k: nat)
    requires prefix + Decimal(j) == prefix + Decimal(k)
    ensures j == k
  {
    ScanPrinted(prefix, j);
    ScanPrinted(prefix, k);
  }
}
