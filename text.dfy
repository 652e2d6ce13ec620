/**
 * The string operations the catalog relies on, restricted to what the model needs:
 * ASCII case folding (`toLowerCase`), substring search (`includes`), whitespace
 * trimming (`trim`), `join`, decimal formatting of integers (template literals) and
 * decimal parsing (`parseInt`). `Split` is not used by the catalog itself; it is the
 * inverse against which `Join` is checked.
 */
module Text {
  import opened Types

  // ---------------------------------------------------------------- case folding

  function LowerChar(c: char): char {
    if 'A' <= c <= 'Z' then (c as int + 32) as char else c
  }

  function UpperChar(c: char): char {
    if 'a' <= c <= 'z' then (c as int - 32) as char else c
  }

  /** ASCII `toLowerCase`: every character folded, nothing added or removed. */
  function Lower(s: string): (r: string)
    ensures |r| == |s|
    ensures forall i :: 0 <= i < |s| ==> r[i] == LowerChar(s[i])
  {
    seq(|s|, i requires 0 <= i < |s| => LowerChar(s[i]))
  }

  /** ASCII `toUpperCase`, used only to state that case does not matter to a search. */
  function Upper(s: string): (r: string)
    ensures |r| == |s|
    ensures forall i :: 0 <= i < |s| ==> r[i] == UpperChar(s[i])
  {
    seq(|s|, i requires 0 <= i < |s| => UpperChar(s[i]))
  }

  /** Upper-casing a string first does not change its lower-case form. */
  lemma LowerOfUpper(s: string)
    ensures Lower(Upper(s)) == Lower(s)
  {
    forall i | 0 <= i < |s| ensures Lower(Upper(s))[i] == Lower(s)[i] {
      assert Upper(s)[i] == UpperChar(s[i]);
    }
  }

  /** Lower-casing commutes with taking a slice. */
  lemma LowerSlice(s: string, i: nat, j: nat)
    requires i <= j <= |s|
    ensures Lower(s)[i..j] == Lower(s[i..j])
  {
    var a, b := Lower(s)[i..j], Lower(s[i..j]);
    assert |a| == j - i == |b|;
    forall k | 0 <= k < j - i ensures a[k] == b[k] {
      assert s[i..j][k] == s[i + k];
    }
  }

  /** Lower-casing distributes over concatenation. */
  lemma LowerAppend(a: string, b: string)
    ensures Lower(a + b) == Lower(a) + Lower(b)
  {
    var l, r := Lower(a + b), Lower(a) + Lower(b);
    assert |l| == |r|;
    forall i | 0 <= i < |l| ensures l[i] == r[i] {
      if i < |a| {
        assert (a + b)[i] == a[i];
      } else {
        assert (a + b)[i] == b[i - |a|];
      }
    }
  }

  // ---------------------------------------------------------------- substring search

  /** Each of three joined strings can be sliced back out of the join. */
  lemma ThreeParts(a: string, b: string, c: string)
    ensures |a + b + c| == |a| + |b| + |c|
    ensures (a + b + c)[..|a|] == a && (a + b + c)[|a|..|a| + |b|] == b && (a + b + c)[|a| + |b|..] == c
  {
  }

  /** What lies between a given head and a given tail of `s`, if `s` has both. */
  function Between(s: string, head: string, tail: string): Option<string> {
    if |head| + |tail| <= |s| && s[..|head|] == head && s[|s| - |tail|..] == tail
    then Some(s[|head|..|s| - |tail|])
    else None
  }

  /** The middle of a join reads back from between its head and its tail. */
  lemma BetweenOfJoin(head: string, mid: string, tail: string)
    ensures Between(head + mid + tail, head, tail) == Some(mid)
  {
    var s := head + mid + tail;
    assert s[..|head|] == head;
    assert s[|s| - |tail|..] == tail;
    assert s[|head|..|s| - |tail|] == mid;
  }

  /** `hay.includes(needle)`: the needle starts at the front of `hay` or somewhere later. */
  predicate Contains(hay: string, needle: string)
    ensures needle == [] ==> Contains(hay, needle)
    ensures Contains(hay, needle) ==> |needle| <= |hay|
    decreases |hay|
  {
    needle <= hay || (hay != [] && Contains(hay[1..], needle))
  }

  /** The needle occurs in `hay` starting at index `i`. */
  predicate OccursAt(hay: string, needle: string, i: int) {
    0 <= i && i + |needle| <= |hay| && hay[i..i + |needle|] == needle
  }

  /** `Contains` agrees with the positional definition of a substring. */
  lemma {:induction false} ContainsIff(hay: string, needle: string)
    ensures Contains(hay, needle) <==> exists i :: OccursAt(hay, needle, i)
  {
    if needle <= hay {
      assert OccursAt(hay, needle, 0);
    } else if hay == [] {
      assert forall i :: !OccursAt(hay, needle, i);
    } else {
      ContainsIff(hay[1..], needle);
      if Contains(hay[1..], needle) {
        var i :| OccursAt(hay[1..], needle, i);
        assert hay[i + 1..i + 1 + |needle|] == hay[1..][i..i + |needle|];
        assert OccursAt(hay, needle, i + 1);
      }
      assert !OccursAt(hay, needle, 0) by {
        assert |needle| <= |hay| ==> hay[0..|needle|] == hay[..|needle|];
      }
      if j :| OccursAt(hay, needle, j) {
        assert hay[1..][j - 1..j - 1 + |needle|] == hay[j..j + |needle|];
        assert OccursAt(hay[1..], needle, j - 1);
      }
    }
  }

  /** An occurrence at a known position is enough to contain the needle. */
  lemma {:induction false} ContainsAt(hay: string, needle: string, i: nat)
    requires OccursAt(hay, needle, i)
    ensures Contains(hay, needle)
  {
    ContainsIff(hay, needle);
  }

  /** A piece of `s` at a known position is found, whatever the case of either side. */
  lemma ContainsLowered(s: string, w: string, i: nat)
    requires OccursAt(s, w, i)
    ensures Contains(Lower(s), Lower(w))
  {
    LowerSlice(s, i, i + |w|);
    ContainsAt(Lower(s), Lower(w), i);
  }

  /** Leading characters that cannot start the needle can be skipped in the search. */
  lemma {:induction false} SkipToFirstChar(hay: string, needle: string, j: nat)
    requires needle != [] && j <= |hay|
    requires forall k :: 0 <= k < j ==> hay[k] != needle[0]
    ensures Contains(hay, needle) <==> Contains(hay[j..], needle)
    decreases j
  {
    if j > 0 {
      assert hay[0] != needle[0];
      assert hay[1..][j - 1..] == hay[j..];
      SkipToFirstChar(hay[1..], needle, j - 1);
    }
  }

  /** A needle that does not start the haystack is contained in it only if it is in the tail. */
  lemma ContainsStep(hay: string, needle: string)
    requires hay != [] && !(needle <= hay)
    ensures Contains(hay, needle) <==> Contains(hay[1..], needle)
  {
  }

  /** A non-empty needle is not contained in the empty string. */
  lemma NotInEmpty(needle: string)
    requires needle != []
    ensures !Contains([], needle)
  {
  }

  /** Every string contains the empty string. */
  lemma ContainsEmpty(hay: string)
    ensures Contains(hay, "")
  {
  }

  /** Whatever contains `a + b` contains `a`: a longer needle is harder to find. */
  lemma {:induction false} ContainsPrefixOfNeedle(hay: string, a: string, b: string)
    requires Contains(hay, a + b)
    ensures Contains(hay, a)
    decreases |hay|
  {
    if a + b <= hay {
      assert hay[..|a|] == (a + b)[..|a|];
    } else {
      ContainsPrefixOfNeedle(hay[1..], a, b);
    }
  }

  // ---------------------------------------------------------------- trimming

  /** The whitespace set `trim` removes, restricted to the usual code points. */
  predicate IsSpace(c: char) {
    c == ' ' || c == '\t' || c == '\n' || c == '\r' || c == '\U{000B}' || c == '\U{000C}'
    || c == '\U{00A0}' || c == '\U{2028}' || c == '\U{2029}' || c == '\U{FEFF}'
  }

  /** Drops leading whitespace: the result is the suffix after a run of spaces. */
  function TrimStart(s: string): (r: string)
    ensures |r| <= |s| && r == s[|s| - |r|..]
    ensures r == [] || !IsSpace(r[0])
    ensures forall i :: 0 <= i < |s| - |r| ==> IsSpace(s[i])
    decreases |s|
  {
    if s != [] && IsSpace(s[0]) then TrimStart(s[1..]) else s
  }

  /** Drops trailing whitespace: the result is the prefix before a run of spaces. */
  function TrimEnd(s: string): (r: string)
    ensures |r| <= |s| && r == s[..|r|]
    ensures r == [] || !IsSpace(r[|r| - 1])
    ensures forall i :: |r| <= i < |s| ==> IsSpace(s[i])
    decreases |s|
  {
    if s != [] && IsSpace(s[|s| - 1]) then TrimEnd(s[..|s| - 1]) else s
  }

  /**
   * `r` is the slice of `s` that starts at `i`, and everything of `s` before and after
   * that slice is whitespace.
   */
  predicate SpaceFramed(s: string, r: string, i: int) {
    0 <= i && i + |r| <= |s| && r == s[i..i + |r|]
    && (forall k :: 0 <= k < i ==> IsSpace(s[k]))
    && (forall k :: i + |r| <= k < |s| ==> IsSpace(s[k]))
  }

  /**
   * `s.trim()`: the input with its leading and trailing whitespace cut off, and nothing
   * else, so the result neither starts nor ends with whitespace.
   */
  function Trim(s: string): (r: string)
    ensures |r| <= |s|
    ensures r == [] || (!IsSpace(r[0]) && !IsSpace(r[|r| - 1]))
    ensures SpaceFramed(s, r, |s| - |TrimStart(s)|)
  {
    TrimmedSlice(s, TrimStart(s), TrimEnd(TrimStart(s)));
    TrimEnd(TrimStart(s))
  }

  /**
   * Cutting trailing spaces off a suffix `t` of `s` that follows a run of spaces leaves
   * a slice of `s` with only spaces before and after it.
   */
  lemma TrimmedSlice(s: string, t: string, r: string)
    requires |t| <= |s| && t == s[|s| - |t|..]
    requires forall k :: 0 <= k < |s| - |t| ==> IsSpace(s[k])
    requires |r| <= |t| && r == t[..|r|]
    requires forall k :: |r| <= k < |t| ==> IsSpace(t[k])
    ensures SpaceFramed(s, r, |s| - |t|)
    ensures r == [] || r[0] == t[0]
  {
    var i := |s| - |t|;
    assert r == s[i..i + |r|];
    forall k | i + |r| <= k < |s| ensures IsSpace(s[k]) {
      assert s[k] == t[k - i];
    }
  }

  /** A string trims to nothing exactly when every character of it is whitespace. */
  lemma TrimEmptyIff(s: string)
    ensures Trim(s) == [] <==> forall i :: 0 <= i < |s| ==> IsSpace(s[i])
  {
    var t := TrimStart(s);
    if t != [] {
      assert !IsSpace(t[0]) && t[0] == s[|s| - |t|];
      assert TrimEnd(t) != [] by {
        if TrimEnd(t) == [] { assert false; }
      }
    }
  }

  // ---------------------------------------------------------------- join and split

  /** `parts.join(sep)`: no separator before the first part or after the last. */
  function Join(parts: seq<string>, sep: string): (r: string)
    ensures parts == [] ==> r == ""
    ensures |parts| == 1 ==> r == parts[0]
    ensures |parts| >= 2 ==> parts[0] + sep <= r
    decreases |parts|
  {
    if |parts| == 0 then ""
    else if |parts| == 1 then parts[0]
    else parts[0] + sep + Join(parts[1..], sep)
  }

  /** `s.split(c)`: the pieces between occurrences of `c`; always at least one piece. */
  function Split(s: string, c: char): (r: seq<string>)
    ensures |r| >= 1
    decreases |s|
  {
    if s == [] then [""]
    else
      var rest := Split(s[1..], c);
      if s[0] == c then [""] + rest else [[s[0]] + rest[0]] + rest[1..]
  }

  /** Appending one part adds one separator and the part at the end. */
  lemma {:induction false} JoinSnoc(parts: seq<string>, x: string, sep: string)
    ensures Join(parts + [x], sep) == if parts == [] then x else Join(parts, sep) + sep + x
    decreases |parts|
  {
    if |parts| >= 2 {
      assert (parts + [x])[1..] == parts[1..] + [x];
      JoinSnoc(parts[1..], x, sep);
    } else if |parts| == 1 {
      assert parts + [x] == [parts[0], x];
    }
  }

  /** A prefix free of the separator is glued onto the first piece of what follows. */
  lemma {:induction false} SplitFreePrefix(a: string, t: string, c: char)
    requires c !in a
    ensures Split(a + t, c) == [a + Split(t, c)[0]] + Split(t, c)[1..]
    decreases |a|
  {
    if a == [] {
      assert a + t == t;
      assert a + Split(t, c)[0] == Split(t, c)[0];
      assert Split(t, c) == [Split(t, c)[0]] + Split(t, c)[1..];
    } else {
      assert (a + t)[0] == a[0];
      assert (a + t)[1..] == a[1..] + t;
      SplitFreePrefix(a[1..], t, c);
      assert [a[0]] + (a[1..] + Split(t, c)[0]) == a + Split(t, c)[0];
    }
  }

  /** Splitting a join on a separator that no part contains gives the parts back. */
  lemma {:induction false} SplitJoin(parts: seq<string>, c: char)
    requires |parts| >= 1
    requires forall k :: 0 <= k < |parts| ==> c !in parts[k]
    ensures Split(Join(parts, [c]), c) == parts
    decreases |parts|
  {
    if |parts| == 1 {
      SplitFreePrefix(parts[0], "", c);
      assert parts[0] + "" == parts[0];
    } else {
      var rest := Join(parts[1..], [c]);
      assert Join(parts, [c]) == parts[0] + ([c] + rest);
      SplitFreePrefix(parts[0], [c] + rest, c);
      assert ([c] + rest)[1..] == rest;
      SplitJoin(parts[1..], c);
      assert Split([c] + rest, c) == [""] + parts[1..];
      assert parts[0] + "" == parts[0];
    }
  }

  // ---------------------------------------------------------------- integers

  predicate IsDigit(c: char) {
    '0' <= c <= '9'
  }

  predicate AllDigits(s: string) {
    forall i :: 0 <= i < |s| ==> IsDigit(s[i])
  }

  function DigitChar(d: int): (c: char)
    requires 0 <= d < 10
    ensures IsDigit(c)
  {
    ('0' as int + d) as char
  }

  function DigitValue(c: char): (d: int)
    requires IsDigit(c)
    ensures 0 <= d < 10 && DigitChar(d) == c
  {
    c as int - '0' as int
  }

  /** Decimal digits of a natural number, most significant first, no leading zeros. */
  function NatToString(n: nat): (r: string)
    ensures |r| >= 1 && AllDigits(r)
    ensures r[0] == '0' ==> n == 0
    decreases n
  {
    if n < 10 then [DigitChar(n)] else NatToString(n / 10) + [DigitChar(n % 10)]
  }

  /** How a template literal prints an integer: a minus sign, then the digits. */
  function IntToString(i: int): (r: string)
    ensures r != [] && (r[0] == '-' <==> i < 0)
    ensures forall k :: 0 <= k < |r| ==> IsDigit(r[k]) || (k == 0 && i < 0)
  {
    if i < 0 then "-" + NatToString(-i) else NatToString(i)
  }

  /** The longest prefix made of digits. */
  function LeadingDigits(s: string): (r: string)
    ensures r <= s && AllDigits(r)
    ensures |r| < |s| ==> !IsDigit(s[|r|])
    decreases |s|
  {
    if s != [] && IsDigit(s[0]) then [s[0]] + LeadingDigits(s[1..]) else []
  }

  /** The value of a string of decimal digits. */
  function DigitsValue(ds: string): nat
    requires AllDigits(ds)
    decreases |ds|
  {
    if ds == [] then 0 else 10 * DigitsValue(ds[..|ds| - 1]) + DigitValue(ds[|ds| - 1])
  }

  /** The unsigned part of `parseInt`: the value of the leading digits, if there are any. */
  function ParseDigits(u: string): Option<nat> {
    var ds := LeadingDigits(u);
    if ds == [] then None else Some(DigitsValue(ds))
  }

  /**
   * `parseInt(s, 10)` on integers: skip leading whitespace, read an optional sign and
   * then as many digits as there are; `None` stands for NaN, when no digit follows.
   */
  function ParseInt(s: string): (r: Option<int>)
    ensures r.Some? ==> exists i :: 0 <= i < |s| && IsDigit(s[i])
    ensures var t := TrimStart(s); r.Some? <==> DigitAt(t) < |t| && IsDigit(t[DigitAt(t)])
  {
    var t := TrimStart(s);
    assert ParseSigned(t).Some? ==> IsDigit(s[|s| - |t| + DigitAt(t)]);
    ParseSigned(t)
  }

  /** Where the first digit `parseInt` reads sits: right after the sign, if there is one. */
  function DigitAt(t: string): nat {
    if t != [] && (t[0] == '-' || t[0] == '+') then 1 else 0
  }

  /** `parseInt` once the leading whitespace is gone; a number only when a digit is read. */
  function ParseSigned(t: string): (r: Option<int>)
    ensures r.Some? <==> DigitAt(t) < |t| && IsDigit(t[DigitAt(t)])
  {
    if t != [] && (t[0] == '-' || t[0] == '+') then
      match ParseDigits(t[1..])
      case None => None
      case Some(v) => var w: int := v; Some(if t[0] == '-' then -w else w)
    else
      match ParseDigits(t)
      case None => None
      case Some(v) => Some(v)
  }

  /** Leading whitespace `parseInt` skips: `TrimStart` removes exactly the run of spaces in front. */
  lemma {:induction false} TrimStartOfSpaces(w: string, s: string)
    requires forall k :: 0 <= k < |w| ==> IsSpace(w[k])
    requires s == [] || !IsSpace(s[0])
    ensures TrimStart(w + s) == s
    decreases |w|
  {
    if w == [] {
      assert w + s == s;
    } else {
      assert (w + s)[0] == w[0];
      assert (w + s)[1..] == w[1..] + s;
      TrimStartOfSpaces(w[1..], s);
    }
  }

  /** `parseInt` reads the same number whatever whitespace precedes it. */
  lemma ParseIntSkipsSpace(w: string, s: string)
    requires forall k :: 0 <= k < |w| ==> IsSpace(w[k])
    requires s == [] || !IsSpace(s[0])
    ensures ParseInt(w + s) == ParseInt(s)
  {
    TrimStartOfSpaces(w, s);
    TrimStartOfSpaces([], s);
  }

  lemma TrimStartOfDigit(u: string)
    requires u != [] && IsDigit(u[0])
    ensures TrimStart(u) == u
  {
    assert !IsSpace(u[0]);
  }

  /** A `+` sign before the digits does not change the number. */
  lemma ParseIntPlusSign(u: string)
    requires u != [] && IsDigit(u[0])
    ensures ParseInt("+" + u) == ParseInt(u)
  {
    var t := "+" + u;
    assert TrimStart(t) == t by {
      assert t[0] == '+';
    }
    TrimStartOfDigit(u);
    ParseSignedPlus(u);
  }

  lemma ParseSignedPlus(u: string)
    requires u != [] && IsDigit(u[0])
    ensures ParseSigned("+" + u) == ParseSigned(u)
  {
    var t := "+" + u;
    assert t[0] == '+' && t[1..] == u;
    assert LeadingDigits(u) != [];
  }

  /** A zero in front of digits adds nothing to their value. */
  lemma {:induction false} DigitsValueLeadingZero(ds: string)
    requires AllDigits(ds)
    ensures DigitsValue("0" + ds) == DigitsValue(ds)
    decreases |ds|
  {
    if ds != [] {
      var z := "0" + ds;
      assert z[..|z| - 1] == "0" + ds[..|ds| - 1];
      assert z[|z| - 1] == ds[|ds| - 1];
      DigitsValueLeadingZero(ds[..|ds| - 1]);
    }
  }

  /** A leading zero does not change the number `parseInt` reads. */
  lemma ParseIntLeadingZero(u: string)
    requires u != [] && IsDigit(u[0])
    ensures ParseInt("0" + u) == ParseInt(u)
  {
    var t := "0" + u;
    assert t[0] == '0';
    TrimStartOfDigit(t);
    TrimStartOfDigit(u);
    ParseSignedLeadingZero(u);
  }

  lemma ParseSignedLeadingZero(u: string)
    requires u != [] && IsDigit(u[0])
    ensures ParseSigned("0" + u) == ParseSigned(u)
  {
    var t := "0" + u;
    assert t[0] == '0' && t[1..] == u;
    assert LeadingDigits(t) == "0" + LeadingDigits(u);
    DigitsValueLeadingZero(LeadingDigits(u));
  }

  lemma {:induction false} DigitsValueOfNat(n: nat)
    ensures DigitsValue(NatToString(n)) == n
    decreases n
  {
    if n >= 10 {
      var r := NatToString(n);
      assert r[..|r| - 1] == NatToString(n / 10);
      DigitsValueOfNat(n / 10);
    }
  }

  lemma {:induction false} LeadingDigitsOf(ds: string, rest: string)
    requires AllDigits(ds)
    requires rest == [] || !IsDigit(rest[0])
    ensures LeadingDigits(ds + rest) == ds
    decreases |ds|
  {
    if ds == [] {
      assert ds + rest == rest;
    } else {
      assert (ds + rest)[1..] == ds[1..] + rest;
      LeadingDigitsOf(ds[1..], rest);
    }
  }

  lemma ParseDigitsOf(n: nat, rest: string)
    requires rest == [] || !IsDigit(rest[0])
    ensures ParseDigits(NatToString(n) + rest) == Some(n)
  {
    LeadingDigitsOf(NatToString(n), rest);
    DigitsValueOfNat(n);
  }

  /** A text that starts with something other than whitespace is left as it is by the trim. */
  lemma TrimStartNoSpace(s: string)
    requires s != [] && !IsSpace(s[0])
    ensures TrimStart(s) == s
  {
  }

  /** With no leading space or sign, `parseInt` reads the leading digits. */
  lemma ParseIntUnsigned(s: string, n: nat)
    requires s != [] && IsDigit(s[0])
    requires ParseDigits(s) == Some(n)
    ensures ParseInt(s) == Some(n)
  {
    TrimStartNoSpace(s);
    assert ParseSigned(s) == Some(n);
  }

  /** A leading minus sign negates the digits after it. */
  lemma ParseIntMinus(s: string, m: nat)
    requires s != [] && s[0] == '-'
    requires ParseDigits(s[1..]) == Some(m)
    ensures ParseInt(s) == Some(-(m as int))
  {
    TrimStartNoSpace(s);
    assert ParseSigned(s) == Some(-(m as int));
  }

  /** Parsing reads back what `IntToString` printed, and stops at the first non-digit. */
  lemma ParseIntOfIntToString(n: int, rest: string)
    requires rest == [] || !IsDigit(rest[0])
    ensures ParseInt(IntToString(n) + rest) == Some(n)
  {
    var s := IntToString(n) + rest;
    if n < 0 {
      var m: nat := -n;
      PrintedNegative(n, rest);
      ParseDigitsOf(m, rest);
      ParseIntMinus(s, m);
    } else {
      var m: nat := n;
      PrintedNatural(n, rest);
      ParseDigitsOf(m, rest);
      ParseIntUnsigned(s, m);
    }
  }

  lemma PrintedNegative(n: int, rest: string)
    requires n < 0
    ensures var s := IntToString(n) + rest;
      s != [] && s[0] == '-' && s[1..] == NatToString(-n) + rest
  {
    assert IntToString(n) == "-" + NatToString(-n);
  }

  lemma PrintedNatural(n: int, rest: string)
    requires n >= 0
    ensures var s := IntToString(n) + rest;
      s == NatToString(n) + rest && IsDigit(s[0])
  {
    assert IntToString(n) == NatToString(n);
    assert (NatToString(n) + rest)[0] == NatToString(n)[0];
  }

  /** A text without any digit does not parse. */
  lemma ParseIntWithoutDigits(s: string)
    requires forall i :: 0 <= i < |s| ==> !IsDigit(s[i])
    ensures ParseInt(s) == None
  {
    var t := TrimStart(s);
    if t != [] {
      assert t[0] == s[|s| - |t|];
      assert LeadingDigits(t) == [];
      if |t| > 1 {
        assert t[1..][0] == s[|s| - |t| + 1];
      }
      assert LeadingDigits(t[1..]) == [];
    }
    assert ParseSigned(t) == None;
  }
}
