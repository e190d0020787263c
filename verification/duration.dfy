/** `_format_duration`: a whole number of seconds written as hours,
    minutes and seconds ("1時間5分", "42秒"), and a reading of such text
    back into seconds. */
module Duration {
  import opened Wrappers
  import opened Strings

  datatype TimeUnit = Hour | Minute | Second

  /** The unit's written suffix. */
  function Symbol(u: TimeUnit): (r: string)
    ensures |r| > 0 && !IsDigit(r[0])
  {
    match u
    case Hour => "時間"
    case Minute => "分"
    case Second => "秒"
  }

  /** `n` units in seconds. */
  function Weigh(n: int, u: TimeUnit): int {
    match u
    case Hour => n * 3600
    case Minute => n * 60
    case Second => n
  }

  /** `total // 3600`, `(total % 3600) // 60` and `total % 60`, with Python's
      flooring for a negative total. */
  function Parts(total: int): (r: (int, nat, nat))
    ensures r.0 * 3600 + r.1 * 60 + r.2 == total
    ensures r.1 < 60 && r.2 < 60
    ensures total >= 0 ==> r.0 >= 0
  {
    PartsSum(total);
    (total / 3600, (total % 3600) / 60, total % 60)
  }

  lemma {:induction false} PartsSum(total: int)
    ensures (total / 3600) * 3600 + ((total % 3600) / 60) * 60 + total % 60 == total
    ensures (total % 3600) / 60 < 60
  {
    var q := total / 3600;
    var rem := total % 3600;
    assert total == q * 3600 + rem;
    assert rem == (rem / 60) * 60 + rem % 60;
    assert total == (q * 60 + rem / 60) * 60 + rem % 60;
    assert total % 60 == rem % 60;
  }

  /** One entry of `parts`: a count and its unit. */
  datatype Amount = Amount(count: nat, unit: TimeUnit)

  /** `f"{n}時間"` and the like. */
  function Piece(a: Amount): string {
    Decimal(a.count) + Symbol(a.unit)
  }

  /** `"".join(parts)`. */
  function Render(parts: seq<Amount>): string {
    if |parts| == 0 then "" else Piece(parts[0]) + Render(parts[1..])
  }

  /** The seconds the amounts stand for together. */
  function Worth(parts: seq<Amount>): int {
    if |parts| == 0 then 0 else Weigh(parts[0].count, parts[0].unit) + Worth(parts[1..])
  }

  /** The entries `_format_duration` appends: the hours when positive, the
      minutes when positive, and the seconds when positive or when nothing
      came before. */
  function Amounts(h: int, m: nat, s: nat): (r: seq<Amount>)
    ensures |r| > 0
  {
    var front := Optional(h, Hour) + Optional(m, Minute);
    if s > 0 || |front| == 0 then front + [Amount(s, Second)] else front
  }

  /** The entry for `n` units when `n` is positive. */
  function Optional(n: int, u: TimeUnit): (r: seq<Amount>)
    ensures |r| <= 1 && (|r| == 1 <==> n > 0)
    ensures forall i :: 0 <= i < |r| ==> r[i] == Amount(n, u)
  {
    if n > 0 then [Amount(n, u)] else []
  }

  lemma {:induction false} WorthAppend(a: seq<Amount>, b: seq<Amount>)
    ensures Worth(a + b) == Worth(a) + Worth(b)
    decreases |a|
  {
    if |a| == 0 {
      assert a + b == b;
    } else {
      assert (a + b)[1..] == a[1..] + b;
      WorthAppend(a[1..], b);
    }
  }

  /** The entries add up to the duration. */
  lemma AmountsWorth(h: int, m: nat, s: nat)
    requires h >= 0
    ensures Worth(Amounts(h, m, s)) == h * 3600 + m * 60 + s
  {
    var hs := Optional(h, Hour);
    var ms := Optional(m, Minute);
    var ss := if s > 0 || |hs + ms| == 0 then [Amount(s, Second)] else [];
    assert Amounts(h, m, s) == hs + ms + ss;
    WorthAppend(hs, ms);
    WorthAppend(hs + ms, ss);
    assert Worth(hs) == h * 3600;
    assert Worth(ms) == m * 60;
    assert Worth(ss) == s;
  }

  /** Larger units come first, each written at most once, and only the
      lone "0秒" has a zero count. */
  lemma AmountsShape(h: int, m: nat, s: nat)
    ensures forall i, j :: 0 <= i < j < |Amounts(h, m, s)|
              ==> Rank(Amounts(h, m, s)[i].unit) < Rank(Amounts(h, m, s)[j].unit)
    ensures forall i :: 0 <= i < |Amounts(h, m, s)|
              ==> Amounts(h, m, s)[i].count > 0 || Amounts(h, m, s) == [Amount(0, Second)]
  {
  }

  /** Larger units come first. */
  function Rank(u: TimeUnit): nat {
    match u
    case Hour => 0
    case Minute => 1
    case Second => 2
  }

  function FormatDuration(total: int): (r: string)
    ensures total == 0 ==> r == "0" + Symbol(Second)
    ensures |r| > 0
  {
    var (h, m, s) := Parts(total);
    var parts := Amounts(h, m, s);
    RenderNonEmpty(parts);
    assert total == 0 ==> parts == [Amount(0, Second)];
    assert total == 0 ==> Render(parts) == Piece(Amount(0, Second)) + Render([]);
    Render(parts)
  }

  lemma RenderNonEmpty(parts: seq<Amount>)
    requires |parts| > 0
    ensures |Render(parts)| > 0
  {
    assert |Piece(parts[0])| > 0;
  }

  /** The end of the run of digits that starts at `i`. */
  function RunEnd(s: string, i: nat): (e: nat)
    requires i <= |s|
    ensures i <= e <= |s|
    decreases |s| - i
  {
    if i == |s| || !IsDigit(s[i]) then i else RunEnd(s, i + 1)
  }

  /** The unit whose symbol `s` holds at `i`, if any. */
  function UnitAt(s: string, i: nat): (r: Option<TimeUnit>)
    requires i <= |s|
    ensures r.Some? ==> i + |Symbol(r.value)| <= |s|
  {
    if i + 2 <= |s| && s[i] == '時' && s[i + 1] == '間' then Some(Hour)
    else if i + 1 <= |s| && s[i] == '分' then Some(Minute)
    else if i + 1 <= |s| && s[i] == '秒' then Some(Second)
    else None
  }

  /** The value of the digits `s[i..e]`. */
  function Value(s: string, i: nat, e: nat): nat
    requires i <= e <= |s|
    decreases e - i
  {
    if e == i then 0 else Value(s, i, e - 1) * 10 + DigitOf(s[e - 1])
  }

  function DigitOf(c: char): nat {
    if IsDigit(c) then c as int - '0' as int else 0
  }

  /** One `<digits><unit>` piece as read, and where it ends. */
  datatype Token = Token(amount: Amount, end: nat)

  /** The piece that starts at `i`; `None` when none does. */
  function Head(s: string, i: nat): (r: Option<Token>)
    requires i <= |s|
    ensures r.Some? ==> i < r.value.end <= |s|
  {
    var e := RunEnd(s, i);
    if e == i then None
    else
      match UnitAt(s, e)
      case None => None
      case Some(u) => Some(Token(Amount(Value(s, i, e), u), e + |Symbol(u)|))
  }

  /** The pieces from `i` to the end; `None` when the text there is not made
      of pieces. */
  function ReadAmounts(s: string, i: nat): (r: Option<seq<Amount>>)
    requires i <= |s|
    decreases |s| - i
  {
    if i == |s| then Some([])
    else
      match Head(s, i)
      case None => None
      case Some(t) =>
        match ReadAmounts(s, t.end)
        case None => None
        case Some(rest) => Some([t.amount] + rest)
  }

  /** Reads text such as "1時間5分" back as a number of seconds. */
  function ReadDuration(s: string): Option<int> {
    match ReadAmounts(s, 0)
    case None => None
    case Some(parts) => Some(Worth(parts))
  }

  /** One step of `ReadAmounts`: the first piece, then the rest. */
  lemma ReadStep(s: string, i: nat, t: Token, rest: seq<Amount>)
    requires i < |s| && Head(s, i) == Some(t)
    requires ReadAmounts(s, t.end) == Some(rest)
    ensures ReadAmounts(s, i) == Some([t.amount] + rest)
  {
  }

  lemma {:induction false} RunEndAt(s: string, i: nat, e: nat)
    requires i <= e < |s| && !IsDigit(s[e])
    requires forall k :: i <= k < e ==> IsDigit(s[k])
    ensures RunEnd(s, i) == e
    decreases e - i
  {
    if i < e {
      RunEndAt(s, i + 1, e);
    }
  }

  lemma {:induction false} ValueAt(s: string, i: nat, d: string)
    requires i + |d| <= |s| && AllDigits(d)
    requires forall k :: 0 <= k < |d| ==> s[i + k] == d[k]
    ensures Value(s, i, i + |d|) == DigitsValue(d)
    decreases |d|
  {
    if |d| > 0 {
      var front := d[..|d| - 1];
      ValueAt(s, i, front);
      assert s[i + (|d| - 1)] == d[|d| - 1];
    }
  }

  /** A piece written at position `|x|`, with anything after it, is read as
      one token. */
  lemma HeadPiece(x: string, a: Amount, more: string)
    ensures Head(x + Piece(a) + more, |x|) == Some(Token(a, |x + Piece(a)|))
  {
    PieceLayout(x, Decimal(a.count), Symbol(a.unit), more);
    HeadAt(x + Piece(a) + more, |x|, Decimal(a.count), a.unit);
    DecimalValue(a.count);
  }

  /** Where the digits and the symbol of a piece sit in the text. */
  lemma PieceLayout(x: string, d: string, sym: string, more: string)
    ensures forall k :: 0 <= k < |d| ==> (x + (d + sym) + more)[|x| + k] == d[k]
    ensures forall k :: 0 <= k < |sym| ==> (x + (d + sym) + more)[|x| + |d| + k] == sym[k]
  {
  }

  /** Digits `d` followed by the symbol of `u` at position `i` are read as one
      token. */
  lemma HeadAt(s: string, i: nat, d: string, u: TimeUnit)
    requires |d| > 0 && AllDigits(d) && i + |d| + |Symbol(u)| <= |s|
    requires forall k :: 0 <= k < |d| ==> s[i + k] == d[k]
    requires forall k :: 0 <= k < |Symbol(u)| ==> s[i + |d| + k] == Symbol(u)[k]
    ensures Head(s, i) == Some(Token(Amount(DigitsValue(d), u), i + |d| + |Symbol(u)|))
  {
    var e := i + |d|;
    DigitRun(s, i, d);
    assert s[e + 0] == Symbol(u)[0];
    RunEndAt(s, i, e);
    UnitAtSymbol(s, e, u);
    ValueAt(s, i, d);
  }

  lemma DigitRun(s: string, i: nat, d: string)
    requires AllDigits(d) && i + |d| <= |s|
    requires forall k :: 0 <= k < |d| ==> s[i + k] == d[k]
    ensures forall k :: i <= k < i + |d| ==> IsDigit(s[k])
  {
    forall k | i <= k < i + |d|
      ensures IsDigit(s[k])
    {
      assert s[i + (k - i)] == d[k - i];
    }
  }

  lemma UnitAtSymbol(s: string, e: nat, u: TimeUnit)
    requires e + |Symbol(u)| <= |s|
    requires forall k :: 0 <= k < |Symbol(u)| ==> s[e + k] == Symbol(u)[k]
    ensures UnitAt(s, e) == Some(u)
  {
    assert s[e + 0] == Symbol(u)[0];
    if u == Hour {
      assert s[e + 1] == Symbol(u)[1];
    }
  }

  /** The rendered amounts, from wherever they start, read back as
      themselves. */
  lemma {:induction false} ReadRender(x: string, parts: seq<Amount>)
    ensures ReadAmounts(x + Render(parts), |x|) == Some(parts)
    decreases |parts|
  {
    if |parts| == 0 {
      assert x + Render(parts) == x;
    } else {
      RenderFirst(x, parts);
      ReadRender(x + Piece(parts[0]), parts[1..]);
      ReadPiece(x, parts[0], Render(parts[1..]), parts[1..]);
      assert [parts[0]] + parts[1..] == parts;
    }
  }

  lemma RenderFirst(x: string, parts: seq<Amount>)
    requires |parts| > 0
    ensures x + Render(parts) == x + Piece(parts[0]) + Render(parts[1..])
  {
  }

  /** A piece followed by text that reads as `rest` reads as the piece's
      amount and then `rest`. */
  lemma ReadPiece(x: string, a: Amount, more: string, rest: seq<Amount>)
    requires ReadAmounts(x + Piece(a) + more, |x + Piece(a)|) == Some(rest)
    ensures ReadAmounts(x + Piece(a) + more, |x|) == Some([a] + rest)
  {
    HeadPiece(x, a, more);
    ReadStep(x + Piece(a) + more, |x|, Token(a, |x + Piece(a)|), rest);
  }

  /** `"".join` of the entries reads back as the entries. */
  lemma ParseRender(parts: seq<Amount>)
    ensures ReadAmounts(Render(parts), 0) == Some(parts)
  {
    ReadRender("", parts);
    assert "" + Render(parts) == Render(parts);
  }

  /** The written form of a non-negative duration reads back as itself. */
  lemma FormatRoundTrip(total: int)
    requires total >= 0
    ensures ReadDuration(FormatDuration(total)) == Some(total)
  {
    var (h, m, s) := Parts(total);
    AmountsWorth(h, m, s);
    ParseRender(Amounts(h, m, s));
  }
}
