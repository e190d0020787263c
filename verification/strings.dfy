/** The Python `str` primitives the server relies on: `strip`, `split(",")`,
    `split()`, `",".join`, `lower`, `startswith`, `in`, `str(int)` and `int(str)`. */
module Strings {
  import opened Wrappers
  import Seqs

  /** Python's `str.isspace()` code points. */
  predicate IsSpace(c: char) {
    ('\t' <= c <= '\r') || ('\U{1C}' <= c <= ' ') || c == '\U{85}' || c == '\U{A0}'
    || c == '\U{1680}' || ('\U{2000}' <= c <= '\U{200A}') || c == '\U{2028}'
    || c == '\U{2029}' || c == '\U{202F}' || c == '\U{205F}' || c == '\U{3000}'
  }

  predicate AllSpace(s: string) {
    forall i :: 0 <= i < |s| ==> IsSpace(s[i])
  }

  predicate NoSpace(s: string) {
    forall i :: 0 <= i < |s| ==> !IsSpace(s[i])
  }

  /** No whitespace at either end: what `strip()` produces. */
  predicate IsTrimmed(s: string) {
    |s| == 0 || (!IsSpace(s[0]) && !IsSpace(s[|s| - 1]))
  }

  function TrimLeft(s: string): (r: string)
    ensures |r| <= |s| && r == s[|s| - |r|..]
    ensures AllSpace(s[..|s| - |r|])
    ensures |r| == 0 || !IsSpace(r[0])
  {
    if |s| > 0 && IsSpace(s[0]) then
      var t := s[1..];
      var r := TrimLeft(t);
      var k := |s| - |r|;
      assert r == s[k..] by {
        assert t[k - 1..] == s[k..];
      }
      assert AllSpace(s[..k]) by {
        forall i | 0 <= i < k
          ensures IsSpace(s[..k][i])
        {
          if i > 0 {
            assert s[..k][i] == t[..k - 1][i - 1];
          }
        }
      }
      r
    else s
  }

  function TrimRight(s: string): (r: string)
    ensures |r| <= |s| && r == s[..|r|]
    ensures AllSpace(s[|r|..])
    ensures |r| == 0 || !IsSpace(r[|r| - 1])
  {
    if |s| > 0 && IsSpace(s[|s| - 1]) then
      var r := TrimRight(s[..|s| - 1]);
      assert forall i :: |r| <= i < |s| - 1 ==> s[i] == s[..|s| - 1][i];
      r
    else s
  }

  /** `s.strip()`: a slice of `s` with no whitespace at either end, which
      leaves an already trimmed string alone. */
  function Strip(s: string): (r: string)
    ensures IsTrimmed(r)
    ensures |r| <= |s|
    ensures forall c :: c in r ==> c in s
    ensures IsTrimmed(s) ==> r == s
  {
    var t := TrimRight(s);
    var r := TrimLeft(t);
    assert |r| > 0 ==> r[|r| - 1] == t[|t| - 1];
    assert r == s[|t| - |r|..|t|];
    r
  }

  lemma {:induction false} TrimLeftSpaces(a: string, t: string)
    requires AllSpace(a)
    requires |t| == 0 || !IsSpace(t[0])
    ensures TrimLeft(a + t) == t
    decreases |a|
  {
    if |a| > 0 {
      var at := a + t;
      assert at[0] == a[0];
      assert IsSpace(at[0]);
      assert at[1..] == a[1..] + t;
      TrimLeftSpaces(a[1..], t);
      assert TrimLeft(at) == TrimLeft(at[1..]);
    } else {
      assert a + t == t;
    }
  }

  lemma {:induction false} TrimRightSpaces(t: string, b: string)
    requires AllSpace(b)
    requires |t| == 0 || !IsSpace(t[|t| - 1])
    ensures TrimRight(t + b) == t
    decreases |b|
  {
    if |b| > 0 {
      var tb := t + b;
      assert tb[|tb| - 1] == b[|b| - 1];
      assert IsSpace(tb[|tb| - 1]);
      assert tb[..|tb| - 1] == t + b[..|b| - 1];
      TrimRightSpaces(t, b[..|b| - 1]);
      assert TrimRight(tb) == TrimRight(tb[..|tb| - 1]);
    } else {
      assert t + b == t;
    }
  }

  /** Stripping removes exactly the surrounding whitespace. */
  lemma {:induction false} StripPadded(a: string, t: string, b: string)
    requires AllSpace(a) && AllSpace(b) && IsTrimmed(t)
    ensures Strip(a + t + b) == t
  {
    if |t| == 0 {
      assert a + t + b == a + b;
      AllSpaceConcat(a, b);
      TrimRightSpaces([], a + b);
      assert [] + (a + b) == a + b;
    } else {
      assert a + t + b == (a + t) + b;
      TrimRightSpaces(a + t, b);
      TrimLeftSpaces(a, t);
    }
  }

  lemma {:induction false} AllSpaceConcat(a: string, b: string)
    requires AllSpace(a) && AllSpace(b)
    ensures AllSpace(a + b)
  {
  }

  /** `sep.join(parts)`. */
  function Join(parts: seq<string>, sep: string): string
  {
    if |parts| == 0 then ""
    else if |parts| == 1 then parts[0]
    else parts[0] + sep + Join(parts[1..], sep)
  }

  /** `s.split(sep)` for a one-character separator: never empty, no piece holds
      the separator, and joining the pieces back gives `s`. */
  function Split(s: string, sep: char): (r: seq<string>)
    ensures |r| >= 1
    ensures forall i :: 0 <= i < |r| ==> sep !in r[i]
    ensures Join(r, [sep]) == s
  {
    if |s| == 0 then [""]
    else
      var rest := Split(s[1..], sep);
      if s[0] == sep then
        var r := [""] + rest;
        assert r[1..] == rest;
        r
      else
        var r := [[s[0]] + rest[0]] + rest[1..];
        assert r[1..] == rest[1..];
        assert |rest| > 1 ==> Join(rest, [sep]) == rest[0] + [sep] + Join(rest[1..], [sep]);
        r
  }

  lemma {:induction false} SplitNoSep(p: string, sep: char)
    requires sep !in p
    ensures Split(p, sep) == [p]
    decreases |p|
  {
    if |p| > 0 {
      SplitNoSep(p[1..], sep);
    }
  }

  lemma {:induction false} SplitFirst(p: string, sep: char, t: string)
    requires sep !in p
    ensures Split(p + [sep] + t, sep) == [p] + Split(t, sep)
    decreases |p|
  {
    var s := p + [sep] + t;
    if |p| == 0 {
      assert s[1..] == t;
    } else {
      assert s[1..] == p[1..] + [sep] + t;
      SplitFirst(p[1..], sep, t);
      var rest := Split(s[1..], sep);
      assert rest[0] == p[1..] && rest[1..] == Split(t, sep);
      assert [p[0]] + p[1..] == p;
    }
  }

  /** `split` undoes `join` when no part contains the separator. */
  lemma {:induction false} SplitJoin(parts: seq<string>, sep: char)
    requires |parts| >= 1
    requires forall i :: 0 <= i < |parts| ==> sep !in parts[i]
    ensures Split(Join(parts, [sep]), sep) == parts
    decreases |parts|
  {
    if |parts| == 1 {
      SplitNoSep(parts[0], sep);
    } else {
      SplitJoin(parts[1..], sep);
      SplitFirst(parts[0], sep, Join(parts[1..], [sep]));
      assert parts == [parts[0]] + parts[1..];
    }
  }

  /** An element of a comma-separated cell: non-empty, trimmed, comma-free. */
  predicate IsListItem(x: string) {
    |x| > 0 && IsTrimmed(x) && ',' !in x
  }

  predicate AllListItems(xs: seq<string>) {
    forall i :: 0 <= i < |xs| ==> IsListItem(xs[i])
  }

  lemma ListItemsCons(x: string, rest: seq<string>)
    requires IsListItem(x) && AllListItems(rest)
    ensures AllListItems([x] + rest)
  {
    var xs := [x] + rest;
    forall i | 0 <= i < |xs|
      ensures IsListItem(xs[i])
    {
      if i > 0 {
        assert xs[i] == rest[i - 1];
      }
    }
  }

  /** `[x.strip() for x in parts if x.strip()]`. */
  function StripNonEmpty(parts: seq<string>): (r: seq<string>)
    requires forall i :: 0 <= i < |parts| ==> ',' !in parts[i]
    ensures AllListItems(r)
    ensures |r| <= |parts|
  {
    if |parts| == 0 then []
    else
      var x := Strip(parts[0]);
      assert ',' !in parts[0];
      assert ',' !in x;
      var rest := StripNonEmpty(parts[1..]);
      if |x| > 0 then
        assert IsListItem(x);
        ListItemsCons(x, rest);
        [x] + rest
      else rest
  }

  /** `[x.strip() for x in s.split(",") if x.strip()]`: the parse of a
      comma-separated cell such as a keywords or blockers column. */
  function SplitList(s: string): (r: seq<string>)
    ensures AllListItems(r)
  {
    StripNonEmpty(Split(s, ','))
  }

  /** Items joined with "," followed by `pad` (all whitespace) parse back. */
  lemma {:induction false} SplitListJoin(items: seq<string>, pad: string)
    requires AllListItems(items)
    requires AllSpace(pad)
    ensures SplitList(Join(items, "," + pad)) == items
  {
    if |items| == 0 {
      assert Split("", ',') == [""];
    } else {
      var padded := Pad(items, pad);
      JoinPad(items, pad);
      StripPadList(items, pad);
      SplitJoin(padded, ',');
    }
  }

  /** The first item unchanged, every later one prefixed by `pad`. */
  function Pad(items: seq<string>, pad: string): seq<string>
    requires |items| >= 1
  {
    [items[0]] + PrefixAll(items[1..], pad)
  }

  function PrefixAll(xs: seq<string>, pad: string): seq<string>
  {
    if |xs| == 0 then [] else [pad + xs[0]] + PrefixAll(xs[1..], pad)
  }

  lemma {:induction false} JoinPad(items: seq<string>, pad: string)
    requires |items| >= 1
    ensures Join(items, "," + pad) == Join(Pad(items, pad), [','])
    decreases |items|
  {
    if |items| > 1 {
      JoinPad(items[1..], pad);
      var q := Pad(items[1..], pad);
      assert PrefixAll(items[1..], pad) == [pad + q[0]] + q[1..];
      JoinPrefixFirst(q, pad);
      assert Pad(items, pad)[1..] == PrefixAll(items[1..], pad);
    }
  }

  lemma {:induction false} JoinPrefixFirst(q: seq<string>, pad: string)
    requires |q| >= 1
    ensures Join([pad + q[0]] + q[1..], [',']) == pad + Join(q, [','])
  {
    var p := [pad + q[0]] + q[1..];
    if |q| > 1 {
      assert p[1..] == q[1..];
      var tail := [','] + Join(q[1..], [',']);
      assert (pad + q[0]) + tail == pad + (q[0] + tail);
    }
  }

  /** One step of `StripNonEmpty`. */
  lemma {:induction false} StripNonEmptyStep(parts: seq<string>)
    requires |parts| > 0
    requires forall i :: 0 <= i < |parts| ==> ',' !in parts[i]
    ensures var x := Strip(parts[0]);
      StripNonEmpty(parts) == (if |x| > 0 then [x] else []) + StripNonEmpty(parts[1..])
  {
  }

  lemma {:induction false} StripPrefixAll(xs: seq<string>, pad: string)
    requires AllListItems(xs)
    requires AllSpace(pad)
    requires ',' !in pad
    ensures forall i :: 0 <= i < |PrefixAll(xs, pad)| ==> ',' !in PrefixAll(xs, pad)[i]
    ensures StripNonEmpty(PrefixAll(xs, pad)) == xs
    decreases |xs|
  {
    if |xs| > 0 {
      var p := PrefixAll(xs, pad);
      var rest := PrefixAll(xs[1..], pad);
      assert p == [pad + xs[0]] + rest;
      assert AllListItems(xs[1..]) by {
        forall i | 0 <= i < |xs[1..]| ensures IsListItem(xs[1..][i]) {
          assert xs[1..][i] == xs[i + 1];
        }
      }
      StripPrefixAll(xs[1..], pad);
      assert IsListItem(xs[0]);
      StripPadded(pad, xs[0], []);
      assert pad + xs[0] + [] == pad + xs[0];
      assert ',' !in pad + xs[0];
      assert p[1..] == rest;
      assert forall i :: 0 <= i < |p| ==> ',' !in p[i] by {
        forall i | 0 <= i < |p| ensures ',' !in p[i] {
          if i > 0 { assert p[i] == rest[i - 1]; }
        }
      }
      assert Strip(p[0]) == xs[0];
      assert StripNonEmpty(p[1..]) == xs[1..];
      StripNonEmptyStep(p);
      assert StripNonEmpty(p) == [xs[0]] + xs[1..];
      Seqs.Cons(xs);
    }
  }

  lemma {:induction false} SpaceNoComma(pad: string)
    requires AllSpace(pad)
    ensures ',' !in pad
  {
  }

  lemma {:induction false} StripPadList(items: seq<string>, pad: string)
    requires |items| >= 1
    requires AllListItems(items)
    requires AllSpace(pad)
    ensures forall i :: 0 <= i < |Pad(items, pad)| ==> ',' !in Pad(items, pad)[i]
    ensures StripNonEmpty(Pad(items, pad)) == items
  {
    SpaceNoComma(pad);
    var rest := PrefixAll(items[1..], pad);
    StripPrefixAll(items[1..], pad);
    var p := Pad(items, pad);
    assert p == [items[0]] + rest;
    forall i | 0 <= i < |p|
      ensures ',' !in p[i]
    {
      if i > 0 {
        assert p[i] == rest[i - 1];
      }
    }
    assert IsListItem(items[0]);
    assert Strip(p[0]) == items[0];
    assert p[1..] == rest;
    assert items == [items[0]] + items[1..];
  }

  /** Python's `s.split()`: the maximal runs of non-whitespace, in order. */
  function Words(s: string): (r: seq<string>)
    ensures forall i :: 0 <= i < |r| ==> |r[i]| > 0 && NoSpace(r[i])
    ensures |s| > 0 && !IsSpace(s[0]) ==> |r| > 0 && r[0][0] == s[0]
    decreases |s|
  {
    if |s| == 0 then []
    else if IsSpace(s[0]) then Words(s[1..])
    else
      var rest := Words(s[1..]);
      if |s| > 1 && !IsSpace(s[1]) then [[s[0]] + rest[0]] + rest[1..]
      else [[s[0]]] + rest
  }

  lemma {:induction false} WordsSingle(w: string)
    requires |w| > 0 && NoSpace(w)
    ensures Words(w) == [w]
    decreases |w|
  {
    if |w| > 1 {
      WordsSingle(w[1..]);
      assert [w[0]] + w[1..] == w;
    } else {
      assert w[1..] == [];
      assert w == [w[0]];
    }
  }

  lemma {:induction false} WordsFirst(w: string, t: string)
    requires |w| > 0 && NoSpace(w)
    ensures Words(w + " " + t) == [w] + Words(t)
    decreases |w|
  {
    var s := w + " " + t;
    if |w| == 1 {
      assert s[1..] == " " + t;
      assert (" " + t)[1..] == t;
      assert s[1] == ' ' && IsSpace(' ');
      assert Words(" " + t) == Words(t);
      assert w == [w[0]];
    } else {
      assert s[1..] == w[1..] + " " + t;
      assert s[1] == w[1];
      WordsFirst(w[1..], t);
      assert [w[0]] + w[1..] == w;
    }
  }

  /** `split()` undoes `" ".join` of non-empty words without whitespace. */
  lemma {:induction false} WordsJoin(ws: seq<string>)
    requires forall i :: 0 <= i < |ws| ==> |ws[i]| > 0 && NoSpace(ws[i])
    ensures Words(Join(ws, " ")) == ws
    decreases |ws|
  {
    if |ws| == 1 {
      WordsSingle(ws[0]);
    } else if |ws| > 1 {
      WordsJoin(ws[1..]);
      WordsFirst(ws[0], Join(ws[1..], " "));
      assert ws == [ws[0]] + ws[1..];
    }
  }

  function LowerChar(c: char): char {
    if 'A' <= c <= 'Z' then (c as int + 32) as char else c
  }

  function UpperChar(c: char): char {
    if 'a' <= c <= 'z' then (c as int - 32) as char else c
  }

  /** `s.lower()` (ASCII letters). */
  function Lower(s: string): string {
    seq(|s|, i requires 0 <= i < |s| => LowerChar(s[i]))
  }

  /** `s.upper()` (ASCII letters). */
  function Upper(s: string): string {
    seq(|s|, i requires 0 <= i < |s| => UpperChar(s[i]))
  }

  predicate StartsWith(s: string, prefix: string) {
    |prefix| <= |s| && s[..|prefix|] == prefix
  }

  predicate EndsWith(s: string, suffix: string) {
    |suffix| <= |s| && s[|s| - |suffix|..] == suffix
  }

  /** Python's `sub in s` for strings. */
  predicate Contains(s: string, sub: string)
    decreases |s|
  {
    StartsWith(s, sub) || (|s| > 0 && Contains(s[1..], sub))
  }

  predicate IsDigit(c: char) {
    '0' <= c <= '9'
  }

  predicate AllDigits(s: string) {
    forall i :: 0 <= i < |s| ==> IsDigit(s[i])
  }

  /** `c.isalnum()` (ASCII letters and digits). */
  predicate IsAlnum(c: char) {
    IsDigit(c) || ('a' <= c <= 'z') || ('A' <= c <= 'Z')
  }

  /** The digits of `s`, in order, as `c.isdigit()` keeps them for ASCII
      text; other Unicode digits are not modelled. */
  function DigitsOf(s: string): (r: string)
    ensures AllDigits(r)
    ensures |r| <= |s|
  {
    if |s| == 0 then ""
    else if IsDigit(s[0]) then [s[0]] + DigitsOf(s[1..])
    else DigitsOf(s[1..])
  }

  function DigitChar(d: nat): char
    requires d < 10
  {
    ('0' as int + d) as char
  }

  /** The value of a run of decimal digits. */
  function DigitsValue(s: string): nat
    requires AllDigits(s)
  {
    if |s| == 0 then 0
    else DigitsValue(s[..|s| - 1]) * 10 + (s[|s| - 1] as int - '0' as int)
  }

  /** `str(n)` for a natural number. */
  function Decimal(n: nat): (r: string)
    ensures |r| >= 1 && AllDigits(r)
    ensures r[0] == '0' ==> n == 0
  {
    if n < 10 then [DigitChar(n)] else Decimal(n / 10) + [DigitChar(n % 10)]
  }

  /** Reading back `str(n)` gives `n`. */
  lemma {:induction false} DecimalValue(n: nat)
    ensures DigitsValue(Decimal(n)) == n
  {
    if n >= 10 {
      DecimalValue(n / 10);
      var d := Decimal(n);
      assert d[..|d| - 1] == Decimal(n / 10);
    }
  }

  function Pow10(w: nat): nat {
    if w == 0 then 1 else 10 * Pow10(w - 1)
  }

  /** `f"{n:0{w}d}"` for `n < 10^w`: exactly `w` digits. */
  function ZeroPad(n: nat, w: nat): (r: string)
    ensures |r| == w && AllDigits(r)
  {
    if w == 0 then "" else ZeroPad(n / 10, w - 1) + [DigitChar(n % 10)]
  }

  /** Reading back a zero-padded number gives the number. */
  lemma {:induction false} ZeroPadValue(n: nat, w: nat)
    requires n < Pow10(w)
    ensures DigitsValue(ZeroPad(n, w)) == n
  {
    if w > 0 {
      ZeroPadValue(n / 10, w - 1);
      var d := ZeroPad(n, w);
      assert d[..|d| - 1] == ZeroPad(n / 10, w - 1);
    }
  }

  /** `int(s)` for base-10 text: surrounding whitespace and one sign allowed,
      at least one digit required; `None` where Python raises ValueError. */
  function ParseInt(s: string): (r: Option<int>)
    ensures r.Some? ==> |Strip(s)| > 0
  {
    var t := Strip(s);
    if |t| > 0 && (t[0] == '-' || t[0] == '+') then
      var body := t[1..];
      if |body| > 0 && AllDigits(body) then
        Some(if t[0] == '-' then -(DigitsValue(body) as int) else DigitsValue(body))
      else None
    else if |t| > 0 && AllDigits(t) then Some(DigitsValue(t))
    else None
  }

  /** `int(str(n)) == n`. */
  lemma {:induction false} ParseIntDecimal(n: nat)
    ensures ParseInt(Decimal(n)) == Some(n)
  {
    var d := Decimal(n);
    assert IsDigit(d[0]) && IsDigit(d[|d| - 1]);
    assert IsTrimmed(d);
    assert Strip(d) == d;
    assert d[0] != '-' && d[0] != '+';
    assert ParseInt(d) == Some(DigitsValue(d) as int);
    DecimalValue(n);
  }
}
