/**
 * The JavaScript built-ins the request composer relies on, stated exactly
 * for the inputs it gives them: `parseInt` with no radix, `String.length`
 * (UTF-16 code units) and `Object.fromEntries` into an ordinary object.
 */
module JsBuiltins {
  import opened Wrappers

  // ---------------------------------------------------------------------
  // parseInt(string) with the radix left undefined (ECMAScript 2024,
  // section 19.2.5).  NaN is `None`.  The mathematical integer is kept
  // exactly; the final rounding to an IEEE double is not modelled.
  // ---------------------------------------------------------------------

  /** StrWhiteSpaceChar: the WhiteSpace and LineTerminator code points. */
  predicate IsStrWhiteSpace(c: char) {
    || c == '\t' || c == '\U{000B}' || c == '\U{000C}' || c == ' '
    || c == '\U{00A0}' || c == '\U{FEFF}' || c == '\U{1680}'
    || ('\U{2000}' <= c <= '\U{200A}')
    || c == '\U{202F}' || c == '\U{205F}' || c == '\U{3000}'
    || c == '\n' || c == '\r' || c == '\U{2028}' || c == '\U{2029}'
  }

  /** The value of a digit character in radices up to 36, or 36 if it is none. */
  function DigitValue(c: char): nat {
    if '0' <= c <= '9' then c as nat - '0' as nat
    else if 'a' <= c <= 'z' then c as nat - 'a' as nat + 10
    else if 'A' <= c <= 'Z' then c as nat - 'A' as nat + 10
    else 36
  }

  predicate IsRadixDigit(c: char, radix: nat) {
    DigitValue(c) < radix
  }

  predicate IsDecimalDigit(c: char) {
    '0' <= c <= '9'
  }

  /** The longest prefix of `s` made of radix-`radix` digits. */
  function DigitPrefix(s: string, radix: nat): (z: string)
  {
    if |s| > 0 && IsRadixDigit(s[0], radix) then [s[0]] + DigitPrefix(s[1..], radix) else []
  }

  /** The integer that a string of digits denotes in the given radix. */
  function DigitsValue(z: string, radix: nat): nat {
    if z == [] then 0 else DigitsValue(z[..|z| - 1], radix) * radix + DigitValue(z[|z| - 1])
  }

  /**
   * The unsigned part of parseInt: a `0x` or `0X` prefix selects radix 16,
   * otherwise radix 10; then the longest digit prefix, NaN if it is empty.
   */
  function ParseUnsigned(u: string): (r: Option<nat>)
    ensures r.Some? ==> |u| > 0 && IsDecimalDigit(u[0])
  {
    var hex := |u| >= 2 && u[0] == '0' && (u[1] == 'x' || u[1] == 'X');
    var radix := if hex then 16 else 10;
    var z := DigitPrefix(if hex then u[2..] else u, radix);
    if z == [] then None else Some(DigitsValue(z, radix))
  }

  /** parseInt once the leading white space is gone: an optional sign, then the digits. */
  function ParseTrimmed(t: string): (r: Option<int>)
    ensures t == [] ==> r == None
    ensures r.Some? && t[0] == '-' ==> r.value <= 0
    ensures r.Some? && t[0] != '-' ==> r.value >= 0
  {
    var signed := |t| > 0 && (t[0] == '-' || t[0] == '+');
    var negative := |t| > 0 && t[0] == '-';
    match ParseUnsigned(if signed then t[1..] else t)
    case None => None
    case Some(n) => Some(if negative then -(n as int) else n as int)
  }

  /** `parseInt(s)`: leading white space is skipped; `None` stands for NaN. */
  function ParseInt(s: string): (r: Option<int>)
    ensures (forall i :: 0 <= i < |s| ==> IsStrWhiteSpace(s[i])) ==> r == None
  {
    if |s| > 0 && IsStrWhiteSpace(s[0]) then ParseInt(s[1..]) else ParseTrimmed(s)
  }

  /** The decimal numeral of a natural number, without leading zeros. */
  function NatDigits(n: nat): (z: string)
    ensures |z| > 0 && (forall i :: 0 <= i < |z| ==> IsDecimalDigit(z[i]))
    ensures z[0] == '0' ==> n == 0
  {
    if n < 10 then [('0' as nat + n) as char]
    else NatDigits(n / 10) + [('0' as nat + n % 10) as char]
  }

  /** `String(n)` for an integer `n` (the canonical decimal form). */
  function DecimalString(n: int): (z: string)
    ensures |z| > 0
    ensures z[0] == '-' <==> n < 0
  {
    if n < 0 then "-" + NatDigits(-n) else NatDigits(n)
  }

  lemma {:induction false} NatDigitsValue(n: nat)
    ensures DigitsValue(NatDigits(n), 10) == n
  {
    var z := NatDigits(n);
    if n >= 10 {
      assert z[..|z| - 1] == NatDigits(n / 10);
      NatDigitsValue(n / 10);
    }
  }

  lemma {:induction false} DigitPrefixOfDigits(z: string, t: string)
    requires forall i :: 0 <= i < |z| ==> IsDecimalDigit(z[i])
    requires t == [] || !IsDecimalDigit(t[0])
    ensures DigitPrefix(z + t, 10) == z
  {
    if z != [] {
      assert (z + t)[1..] == z[1..] + t;
      DigitPrefixOfDigits(z[1..], t);
    }
  }

  lemma ParseUnsignedDecimalPrefix(m: nat, t: string)
    requires t == [] || !IsDecimalDigit(t[0])
    requires m != 0 || t == [] || (t[0] != 'x' && t[0] != 'X')
    ensures ParseUnsigned(NatDigits(m) + t) == Some(m)
  {
    var z := NatDigits(m);
    var u := z + t;
    assert !(|u| >= 2 && u[0] == '0' && (u[1] == 'x' || u[1] == 'X')) by {
      if |z| >= 2 { assert u[1] == z[1]; }
      else if |u| >= 2 && u[0] == '0' { assert m == 0 && u[1] == t[0]; }
    }
    DigitPrefixOfDigits(z, t);
    NatDigitsValue(m);
  }

  lemma ParseIntNatPrefix(m: nat, t: string, s: string)
    requires t == [] || !IsDecimalDigit(t[0])
    requires m != 0 || t == [] || (t[0] != 'x' && t[0] != 'X')
    requires s == NatDigits(m) + t
    ensures ParseInt(s) == Some(m)
  {
    ParseUnsignedDecimalPrefix(m, t);
    assert s[0] == NatDigits(m)[0];
  }

  lemma ParseIntNegativePrefix(m: nat, t: string, s: string)
    requires m != 0
    requires t == [] || !IsDecimalDigit(t[0])
    requires |s| > 0 && s[0] == '-' && s[1..] == NatDigits(m) + t
    ensures ParseInt(s) == Some(-(m as int))
  {
    ParseUnsignedDecimalPrefix(m, t);
  }

  lemma ParseIntNegativeDecimal(n: int, t: string, s: string)
    requires n < 0
    requires t == [] || !IsDecimalDigit(t[0])
    requires s == DecimalString(n) + t
    ensures ParseInt(s) == Some(n)
  {
    NegativeDecimalShape(n, t);
    ParseIntNegativePrefix(-n, t, s);
  }

  lemma NegativeDecimalShape(n: int, t: string)
    requires n < 0
    ensures var s := DecimalString(n) + t; |s| > 0 && s[0] == '-' && s[1..] == NatDigits(-n) + t
  {
    var s := DecimalString(n) + t;
    assert s == "-" + (NatDigits(-n) + t);
  }

  /**
   * parseInt reads back the canonical decimal form of any integer, and
   * ignores whatever follows it from the first non-digit on ("21abc" is 21).
   * The one exception is a zero followed by `x`: "0x1A" is read as hex.
   */
  lemma ParseIntDecimalPrefix(n: int, t: string)
    requires t == [] || !IsDecimalDigit(t[0])
    requires n != 0 || t == [] || (t[0] != 'x' && t[0] != 'X')
    ensures ParseInt(DecimalString(n) + t) == Some(n)
  {
    if n < 0 {
      ParseIntNegativeDecimal(n, t, DecimalString(n) + t);
    } else {
      ParseIntNatPrefix(n, t, DecimalString(n) + t);
    }
  }

  lemma ParseIntDecimal(n: int)
    ensures ParseInt(DecimalString(n)) == Some(n)
  {
    assert DecimalString(n) + [] == DecimalString(n);
    ParseIntDecimalPrefix(n, []);
  }

  /** Leading white space never changes what parseInt returns. */
  lemma {:induction false} ParseIntSkipsWhiteSpace(ws: string, s: string)
    requires forall i :: 0 <= i < |ws| ==> IsStrWhiteSpace(ws[i])
    ensures ParseInt(ws + s) == ParseInt(s)
  {
    if ws == [] {
      assert ws + s == s;
    } else {
      assert (ws + s)[0] == ws[0];
      assert (ws + s)[1..] == ws[1..] + s;
      ParseIntSkipsWhiteSpace(ws[1..], s);
    }
  }

  /** A zero after an optional sign reads as 0: "0", "-0" and "+0" (and any non-digit tail). */
  lemma ParseIntSignedZero(sign: string, tail: string, t: string)
    requires sign == "" || sign == "-" || sign == "+"
    requires tail == [] || (!IsDecimalDigit(tail[0]) && tail[0] != 'x' && tail[0] != 'X')
    requires t == sign + "0" + tail
    ensures ParseInt(t) == Some(0)
  {
    var u := "0" + tail;
    assert NatDigits(0) == "0";
    ParseUnsignedDecimalPrefix(0, tail);
    if sign == "" {
      assert t == u;
    } else {
      assert t[0] == sign[0] && t[1..] == u;
    }
  }

  /** Text whose first non-blank character is not a sign or a digit is NaN. */
  lemma ParseIntNaN(ws: string, s: string)
    requires forall i :: 0 <= i < |ws| ==> IsStrWhiteSpace(ws[i])
    requires s == [] || (!IsStrWhiteSpace(s[0]) && s[0] != '-' && s[0] != '+' && !IsDecimalDigit(s[0]))
    ensures ParseInt(ws + s) == None
  {
    ParseIntSkipsWhiteSpace(ws, s);
  }

  // ---------------------------------------------------------------------
  // String.prototype.length counts UTF-16 code units: a code point above
  // U+FFFF is a surrogate pair and counts twice.
  // ---------------------------------------------------------------------

  predicate InBmp(c: char) {
    c <= '\U{FFFF}'
  }

  function Utf16Length(s: string): (r: nat)
    ensures |s| <= r <= 2 * |s|
    ensures r == |s| <==> forall i :: 0 <= i < |s| ==> InBmp(s[i])
  {
    if s == [] then 0
    else
      var rest := Utf16Length(s[1..]);
      assert forall i :: 1 <= i < |s| ==> s[1..][i - 1] == s[i];
      (if InBmp(s[0]) then 1 else 2) + rest
  }

  // ---------------------------------------------------------------------
  // Object.fromEntries into an ordinary object.  The object is the list of
  // its own properties in creation order; assigning an existing key keeps
  // its position and replaces its value.
  // ---------------------------------------------------------------------

  type Entries = seq<(string, string)>

  function Keys(es: Entries): set<string> {
    set i | 0 <= i < |es| :: es[i].0
  }

  predicate DistinctKeys(es: Entries) {
    forall i, j :: 0 <= i < j < |es| ==> es[i].0 != es[j].0
  }

  /** The value stored under `k`, the first match in property order. */
  function Lookup(obj: Entries, k: string): Option<string> {
    if obj == [] then None
    else if obj[0].0 == k then Some(obj[0].1)
    else Lookup(obj[1..], k)
  }

  /** The value the last entry with key `k` carries. */
  function LastValue(es: Entries, k: string): Option<string> {
    if es == [] then None
    else if es[|es| - 1].0 == k then Some(es[|es| - 1].1)
    else LastValue(es[..|es| - 1], k)
  }

  /** `obj[k] = v` on an ordinary object. */
  function Put(obj: Entries, k: string, v: string): (r: Entries)
    ensures |obj| <= |r| <= |obj| + 1
  {
    if obj == [] then [(k, v)]
    else if obj[0].0 == k then [(k, v)] + obj[1..]
    else [obj[0]] + Put(obj[1..], k, v)
  }

  function FromEntries(es: Entries): (obj: Entries)
    ensures |obj| <= |es|
  {
    if es == [] then [] else
      var last := es[|es| - 1];
      Put(FromEntries(es[..|es| - 1]), last.0, last.1)
  }

  lemma KeysCons(e: (string, string), rest: Entries)
    ensures Keys([e] + rest) == {e.0} + Keys(rest)
  {
    var es := [e] + rest;
    assert es[0].0 == e.0;
    forall x | x in Keys(es) ensures x in {e.0} + Keys(rest) {
      var i :| 0 <= i < |es| && es[i].0 == x;
      if i > 0 { assert rest[i - 1] == es[i]; }
    }
    forall x | x in Keys(rest) ensures x in Keys(es) {
      var i :| 0 <= i < |rest| && rest[i].0 == x;
      assert es[i + 1] == rest[i];
    }
  }

  lemma {:induction false} PutKeys(obj: Entries, k: string, v: string)
    ensures Keys(Put(obj, k, v)) == Keys(obj) + {k}
  {
    if obj == [] {
      assert Put(obj, k, v) == [(k, v)] + [];
      KeysCons((k, v), []);
    } else {
      assert obj == [obj[0]] + obj[1..];
      KeysCons(obj[0], obj[1..]);
      if obj[0].0 == k {
        KeysCons((k, v), obj[1..]);
      } else {
        PutKeys(obj[1..], k, v);
        KeysCons(obj[0], Put(obj[1..], k, v));
      }
    }
  }

  lemma {:induction false} PutLookup(obj: Entries, k: string, v: string)
    ensures Lookup(Put(obj, k, v), k) == Some(v)
    ensures forall k' :: k' != k ==> Lookup(Put(obj, k, v), k') == Lookup(obj, k')
  {
    if obj != [] && obj[0].0 != k {
      PutLookup(obj[1..], k, v);
      assert (Put(obj, k, v))[1..] == Put(obj[1..], k, v);
    }
  }

  lemma {:induction false} DistinctKeysCons(e: (string, string), rest: Entries)
    ensures DistinctKeys([e] + rest) <==> e.0 !in Keys(rest) && DistinctKeys(rest)
  {
    var es := [e] + rest;
    assert es[0] == e;
    if DistinctKeys(es) {
      forall i | 0 <= i < |rest| ensures rest[i].0 != e.0 {
        assert es[i + 1] == rest[i];
        assert es[0].0 != es[i + 1].0;
      }
      forall i, j | 0 <= i < j < |rest| ensures rest[i].0 != rest[j].0 {
        assert es[i + 1] == rest[i] && es[j + 1] == rest[j];
      }
    }
    if e.0 !in Keys(rest) && DistinctKeys(rest) {
      forall i, j | 0 <= i < j < |es| ensures es[i].0 != es[j].0 {
        assert es[j] == rest[j - 1];
        if i > 0 { assert es[i] == rest[i - 1]; }
      }
    }
  }

  lemma {:induction false} PutDistinct(obj: Entries, k: string, v: string)
    requires DistinctKeys(obj)
    ensures DistinctKeys(Put(obj, k, v))
    ensures k !in Keys(obj) ==> Put(obj, k, v) == obj + [(k, v)]
  {
    if obj == [] {
    } else {
      var tail := obj[1..];
      assert obj == [obj[0]] + tail;
      DistinctKeysCons(obj[0], tail);
      KeysCons(obj[0], tail);
      if obj[0].0 == k {
        DistinctKeysCons((k, v), tail);
      } else {
        PutDistinct(tail, k, v);
        PutKeys(tail, k, v);
        DistinctKeysCons(obj[0], Put(tail, k, v));
      }
    }
  }

  /**
   * Object.fromEntries yields an object with one property per distinct key,
   * holding the value of the LAST entry with that key.
   */
  lemma {:induction false} FromEntriesFacts(es: Entries)
    ensures DistinctKeys(FromEntries(es))
    ensures Keys(FromEntries(es)) == Keys(es)
    ensures forall k :: Lookup(FromEntries(es), k) == LastValue(es, k)
  {
    if es != [] {
      var init := es[..|es| - 1];
      var last := es[|es| - 1];
      FromEntriesFacts(init);
      PutKeys(FromEntries(init), last.0, last.1);
      PutLookup(FromEntries(init), last.0, last.1);
      PutDistinct(FromEntries(init), last.0, last.1);
      assert Keys(es) == Keys(init) + {last.0} by {
        forall x | x in Keys(es) ensures x in Keys(init) + {last.0} {
          var i :| 0 <= i < |es| && es[i].0 == x;
          if i < |es| - 1 { assert init[i] == es[i]; }
        }
        forall x | x in Keys(init) ensures x in Keys(es) {
          var i :| 0 <= i < |init| && init[i].0 == x;
          assert es[i] == init[i];
        }
      }
    }
  }

  /** Entries whose keys are already distinct come out unchanged and in order. */
  lemma {:induction false} FromEntriesDistinct(es: Entries)
    requires DistinctKeys(es)
    ensures FromEntries(es) == es
  {
    if es != [] {
      var init := es[..|es| - 1];
      var last := es[|es| - 1];
      assert DistinctKeys(init) by {
        forall i, j | 0 <= i < j < |init| ensures init[i].0 != init[j].0 {
          assert init[i] == es[i] && init[j] == es[j];
        }
      }
      FromEntriesDistinct(init);
      FromEntriesFacts(init);
      assert last.0 !in Keys(init) by {
        forall i | 0 <= i < |init| ensures init[i].0 != last.0 {
          assert es[i] == init[i];
        }
      }
      PutDistinct(init, last.0, last.1);
      assert init + [last] == es;
    }
  }
}
