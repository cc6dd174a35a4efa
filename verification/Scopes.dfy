/** Scope references and their keys (backend/app/effective_state/models.py, resolver.py). */
module Scopes {
  import opened Common

  const MAX_LINE: nat := 999

  /** The attributes of the source's ScopeRef only repeat what the key says. */
  datatype Scope = Scope(kind: string, key: string)

  predicate IsDigit(c: char) {
    '0' <= c <= '9'
  }

  function DigitOf(n: nat): char
    requires n < 10
  {
    "0123456789"[n]
  }

  function ValueOf(c: char): (n: nat)
    requires IsDigit(c)
    ensures n < 10
  {
    c as nat - '0' as nat
  }

  /** Decimal text of a number. */
  function Decimal(n: nat): (s: string)
    ensures s != [] && forall i :: 0 <= i < |s| ==> IsDigit(s[i])
  {
    if n < 10 then [DigitOf(n)] else Decimal(n / 10) + [DigitOf(n % 10)]
  }

  /** `int` on one or more digits. */
  function ReadDecimal(s: string): Option<nat> {
    if s == [] || exists i :: 0 <= i < |s| && !IsDigit(s[i]) then None else Some(Digits(s))
  }

  function Digits(s: string): nat
    requires forall i :: 0 <= i < |s| ==> IsDigit(s[i])
  {
    if s == [] then 0 else 10 * Digits(s[..|s| - 1]) + ValueOf(s[|s| - 1])
  }

  lemma {:induction false} DigitsOfDecimal(n: nat)
    ensures Digits(Decimal(n)) == n
  {
    if n < 10 {
      assert Decimal(n)[..0] == [];
    } else {
      DigitsOfDecimal(n / 10);
      var s := Decimal(n);
      assert s[..|s| - 1] == Decimal(n / 10);
    }
  }

  const VTY := "vty:"

  function VtyKey(start: nat, end: nat): string {
    VTY + Decimal(start) + "-" + Decimal(end)
  }

  /** Position of the first dash. */
  function Dash(s: string): (r: Option<nat>)
    ensures r.Some? ==> r.value < |s| && s[r.value] == '-' && forall i :: 0 <= i < r.value ==> s[i] != '-'
    ensures r.None? ==> '-' !in s
  {
    if s == [] then None
    else if s[0] == '-' then Some(0)
    else
      match Dash(s[1..])
      case None => None
      case Some(i) => Some(i + 1)
  }

  /** The bounds a well-formed VTY key spells. */
  function VtyBounds(key: string): Option<(nat, nat)> {
    if !(VTY <= key) then None
    else
      var body := key[|VTY|..];
      match Dash(body)
      case None => None
      case Some(i) =>
        match (ReadDecimal(body[..i]), ReadDecimal(body[i + 1..]))
        case (Some(start), Some(end)) => Some((start, end))
        case _ => None
  }

  /** `_validate_scope`. */
  predicate ValidScope(s: Scope) {
    match s.kind
    case "device" => s.key == "device"
    case "vty_range" =>
      var bounds := VtyBounds(s.key);
      bounds.Some? && bounds.value.0 <= bounds.value.1 <= MAX_LINE
    case "interface" => "interface:" < s.key
    case "administrator" => "administrator:" < s.key
    case "management_service" =>
      s.key in {"management:ssh", "management:telnet", "management:http", "management:https"}
    case _ => false
  }

  /** A line range written as a key reads back as the same range. */
  lemma VtyKeyReadsBack(start: nat, end: nat)
    ensures VtyBounds(VtyKey(start, end)) == Some((start, end))
  {
    var first, second := Decimal(start), Decimal(end);
    var body := VtyKey(start, end)[|VTY|..];
    assert body == first + "-" + second;
    assert body[|first|] == '-';
    var i := Dash(body);
    assert forall k :: 0 <= k < |first| ==> body[k] == first[k] && IsDigit(first[k]);
    assert i == Some(|first|);
    assert body[..|first|] == first && body[|first| + 1..] == second;
    DigitsOfDecimal(start);
    DigitsOfDecimal(end);
  }

  /** A valid key tells the kind of its scope. */
  lemma KeyTellsKind(a: Scope, b: Scope)
    requires ValidScope(a) && ValidScope(b) && a.key == b.key
    ensures a == b
  {
    assert ValidScope(a) ==> a.key[0] == match a.kind
      case "device" => 'd'
      case "vty_range" => 'v'
      case "interface" => 'i'
      case "administrator" => 'a'
      case _ => 'm';
    assert ValidScope(b) ==> b.key[0] == match b.kind
      case "device" => 'd'
      case "vty_range" => 'v'
      case "interface" => 'i'
      case "administrator" => 'a'
      case _ => 'm';
  }
}
