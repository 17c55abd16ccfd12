/**
 * The string operations the rule engine borrows from Python: `str.lower`,
 * `int(str)` and `str.join`, each restricted to what the engine needs.
 */
module Text {
  import opened Wrappers

  predicate IsUpper(c: char) { 'A' <= c <= 'Z' }

  function LowerChar(c: char): char
  {
    if IsUpper(c) then (c as int + 32) as char else c
  }

  /** `s.lower()` on ASCII letters: upper-case letters become lower-case, nothing else changes. */
  function Lower(s: string): (r: string)
    ensures |r| == |s|
  {
    seq(|s|, i requires 0 <= i < |s| => LowerChar(s[i]))
  }

  /**
   * Each upper-case letter becomes its lower-case partner (32 code points on),
   * every other character is kept, and no upper-case letter survives.
   */
  lemma LowerSpec(s: string)
    ensures forall i :: 0 <= i < |s| && IsUpper(s[i]) ==> Lower(s)[i] as int == s[i] as int + 32
    ensures forall i :: 0 <= i < |s| && !IsUpper(s[i]) ==> Lower(s)[i] == s[i]
    ensures forall i :: 0 <= i < |s| ==> !IsUpper(Lower(s)[i])
  {
  }

  /**
   * `p` spells `name` up to letter case: position by position the same
   * character, or an upper-case letter whose lower-case partner is there.
   */
  predicate CaseVariant(p: string, name: string)
  {
    && |p| == |name|
    && forall i :: 0 <= i < |p| ==> p[i] == name[i] || (IsUpper(p[i]) && p[i] as int + 32 == name[i] as int)
  }

  /** For a name without capitals, `p.lower() == name` holds exactly when `p` spells the name in some letter case. */
  lemma {:induction false} LowerEqualsIff(p: string, name: string)
    requires forall i :: 0 <= i < |name| ==> !IsUpper(name[i])
    ensures Lower(p) == name <==> CaseVariant(p, name)
  {
    LowerSpec(p);
    if CaseVariant(p, name) {
      forall i | 0 <= i < |p|
        ensures Lower(p)[i] == name[i]
      {
        if p[i] != name[i] {
          assert IsUpper(p[i]) && p[i] as int + 32 == name[i] as int;
          assert Lower(p)[i] as int == name[i] as int;
        }
      }
    }
  }

  /** A string without upper-case letters is its own lower-case form. */
  lemma LowerKeepsLowerCase(s: string)
    requires forall i :: 0 <= i < |s| ==> !IsUpper(s[i])
    ensures Lower(s) == s
  {
  }

  /** Lower-casing twice is lower-casing once. */
  lemma LowerIdempotent(s: string)
    ensures Lower(Lower(s)) == Lower(s)
  {
    LowerSpec(s);
    LowerKeepsLowerCase(Lower(s));
  }

  /** The white space `int()` and `str.strip()` remove around a number (ASCII part). */
  predicate IsSpace(c: char)
  {
    c == ' ' || c == '\t' || c == '\n' || c == '\r' || c as int == 11 || c as int == 12
  }

  function TrimStart(s: string): (r: string)
    ensures |r| <= |s| && r == s[|s| - |r|..]
    ensures forall i :: 0 <= i < |s| - |r| ==> IsSpace(s[i])
    ensures r == [] || !IsSpace(r[0])
    ensures s == [] || !IsSpace(s[0]) ==> r == s
  {
    if s != [] && IsSpace(s[0]) then
      var r := TrimStart(s[1..]);
      assert forall i :: 1 <= i < |s| - |r| ==> s[i] == s[1..][i - 1];
      r
    else s
  }

  function TrimEnd(s: string): (r: string)
    ensures r <= s
    ensures forall i :: |r| <= i < |s| ==> IsSpace(s[i])
    ensures r == [] || !IsSpace(r[|r| - 1])
    ensures s == [] || !IsSpace(s[|s| - 1]) ==> r == s
  {
    if s != [] && IsSpace(s[|s| - 1]) then TrimEnd(s[..|s| - 1]) else s
  }

  /** `s.strip()`: white space removed at both ends, a string without it at the ends is kept. */
  function Strip(s: string): (r: string)
    ensures r == [] || (!IsSpace(r[0]) && !IsSpace(r[|r| - 1]))
    ensures s == [] || (!IsSpace(s[0]) && !IsSpace(s[|s| - 1])) ==> r == s
  {
    var t := TrimStart(s);
    assert t != [] ==> t[|t| - 1] == s[|s| - 1];
    TrimEnd(t)
  }

  /** What `strip()` removes is white space only: the result is a slice of `s` with nothing but white space around it. */
  lemma StripIsSlice(s: string)
    ensures exists a, b ::
      && 0 <= a <= b <= |s| && Strip(s) == s[a..b]
      && (forall i :: 0 <= i < a ==> IsSpace(s[i]))
      && (forall i :: b <= i < |s| ==> IsSpace(s[i]))
  {
    var t := TrimStart(s);
    var r := TrimEnd(t);
    var a, b := |s| - |t|, |s| - |t| + |r|;
    assert t == s[a..];
    assert r == t[..|r|];
    assert r == s[a..b];
    assert Strip(s) == r;
    assert forall i :: 0 <= i < a ==> IsSpace(s[i]);
    assert forall i :: b <= i < |s| ==> IsSpace(s[i]) by {
      forall i | b <= i < |s|
        ensures IsSpace(s[i])
      {
        assert s[i] == t[i - a];
      }
    }
    assert 0 <= a <= b <= |s| && Strip(s) == s[a..b];
  }

  predicate IsDigit(c: char) { '0' <= c <= '9' }

  /**
   * The digit part Python's `int()` accepts in base 10: digits, with single
   * underscores allowed between two digits.
   */
  predicate WellFormedDigits(ds: string)
  {
    && |ds| > 0
    && IsDigit(ds[0])
    && IsDigit(ds[|ds| - 1])
    && (forall i :: 0 <= i < |ds| ==> IsDigit(ds[i]) || ds[i] == '_')
    && (forall i :: 0 <= i < |ds| - 1 && ds[i] == '_' ==> ds[i + 1] != '_')
  }

  /** The number the digits of `ds` spell, underscores skipped. */
  function DigitsValue(ds: string): nat
  {
    if ds == [] then 0
    else if IsDigit(ds[|ds| - 1]) then DigitsValue(ds[..|ds| - 1]) * 10 + (ds[|ds| - 1] as int - '0' as int)
    else DigitsValue(ds[..|ds| - 1])
  }

  /**
   * `int(s)` on a string: surrounding white space is ignored, one optional
   * sign, then well-formed digits; anything else raises (None).
   */
  function ParseInt(s: string): Option<int>
  {
    var t := Strip(s);
    var signed := t != [] && (t[0] == '-' || t[0] == '+');
    var ds := if signed then t[1..] else t;
    if !WellFormedDigits(ds) then None
    else
      var n: int := DigitsValue(ds);
      Some(if signed && t[0] == '-' then -n else n)
  }

  function DigitChar(d: nat): (c: char)
    requires d < 10
    ensures IsDigit(c) && c as int - '0' as int == d
  {
    ('0' as int + d) as char
  }

  /** Decimal text of a natural number, as `str(n)` writes it. */
  function ShowNat(n: nat): (r: string)
    ensures r != [] && IsDigit(r[0]) && IsDigit(r[|r| - 1])
    ensures forall i :: 0 <= i < |r| ==> IsDigit(r[i])
  {
    if n < 10 then [DigitChar(n)] else ShowNat(n / 10) + [DigitChar(n % 10)]
  }

  /** Decimal text of an integer, as `str(i)` writes it. */
  function ShowInt(i: int): string
  {
    if i < 0 then "-" + ShowNat(-i) else ShowNat(i)
  }

  lemma {:induction false} DigitsValueOfShowNat(n: nat)
    ensures DigitsValue(ShowNat(n)) == n
  {
    if n >= 10 {
      var r := ShowNat(n);
      assert r[..|r| - 1] == ShowNat(n / 10);
      DigitsValueOfShowNat(n / 10);
    }
  }

  /** Well-formed digits with nothing around them parse to the number they spell, with either sign. */
  lemma ParseDigitsAlone(ds: string, negative: bool)
    requires WellFormedDigits(ds)
    ensures ParseInt(if negative then "-" + ds else ds) == Some(if negative then -(DigitsValue(ds) as int) else DigitsValue(ds))
  {
    var s := if negative then "-" + ds else ds;
    assert !IsSpace(s[0]) && !IsSpace(s[|s| - 1]);
    assert Strip(s) == s;
    var n: int := DigitsValue(ds);
    if negative {
      assert s[0] == '-' && s[1..] == ds;
      assert ParseInt(s) == Some(-n);
    } else {
      assert s[0] != '-' && s[0] != '+';
      assert ParseInt(s) == Some(n);
    }
  }

  /** `int(str(i)) == i`: parsing undoes writing a number in decimal. */
  lemma ParseShowInt(i: int)
    ensures ParseInt(ShowInt(i)) == Some(i)
  {
    var n: nat := if i < 0 then -i else i;
    DigitsValueOfShowNat(n);
    ParseDigitsAlone(ShowNat(n), i < 0);
  }

  /**
   * `sep.join(parts)`: the parts in order with `sep` between neighbours.
   */
  function Join(sep: string, parts: seq<string>): (r: string)
    ensures parts == [] ==> r == []
    ensures |parts| == 1 ==> r == parts[0]
    ensures |parts| > 0 ==> parts[0] <= r
  {
    if parts == [] then []
    else if |parts| == 1 then parts[0]
    else Join(sep, parts[..|parts| - 1]) + sep + parts[|parts| - 1]
  }

  /** Joining non-empty parts gives the empty string exactly when there are no parts. */
  lemma {:induction false} JoinEmptyIff(sep: string, parts: seq<string>)
    requires forall i :: 0 <= i < |parts| ==> parts[i] != []
    ensures Join(sep, parts) == [] <==> parts == []
  {
    if |parts| > 0 {
      assert parts[0] <= Join(sep, parts);
    }
  }

  /** Adding a part extends the joined text: earlier parts keep their place. */
  lemma JoinAppend(sep: string, parts: seq<string>, p: string)
    requires parts != []
    ensures Join(sep, parts + [p]) == Join(sep, parts) + sep + p
  {
    assert (parts + [p])[..|parts|] == parts;
  }
}
