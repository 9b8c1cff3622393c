/** The currency table of the scrapers and their shared price pattern
    `<symbol>\s*(\d+(?:,\d{3})*(?:\.\d{2})?)`, written as a hand-made matcher
    over strings; Python's `re.findall` scan over a page; and the reading of a
    matched amount as an exact number of cents. */
module Currency {
  import opened Common

  datatype CurrencyConfig = CurrencyConfig(code: string, symbol: char)

  const Usd := CurrencyConfig("USD", '$')
  const Gbp := CurrencyConfig("GBP", '\U{00A3}')
  const Eur := CurrencyConfig("EUR", '\U{20AC}')

  /** `CURRENCIES.get(code)`: exactly three codes are known, each to its own config. */
  function Lookup(code: string): (r: Option<CurrencyConfig>)
    ensures r.Some? <==> code in {"USD", "GBP", "EUR"}
    ensures r.Some? ==> r.value.code == code && r.value in {Usd, Gbp, Eur}
  {
    if code == "USD" then Some(Usd)
    else if code == "GBP" then Some(Gbp)
    else if code == "EUR" then Some(Eur)
    else None
  }

  /** `\d`, restricted to the ASCII digits. */
  predicate IsDigit(c: char)
  {
    '0' <= c <= '9'
  }

  /** `\s` in a str pattern: the characters for which Python's `str.isspace()` holds. */
  predicate IsSpace(c: char)
  {
    c == ' ' || '\t' <= c <= '\r' || '\U{1C}' <= c <= '\U{1F}' || c == '\U{85}' || c == '\U{A0}'
    || c == '\U{1680}' || '\U{2000}' <= c <= '\U{200A}' || c == '\U{2028}' || c == '\U{2029}'
    || c == '\U{202F}' || c == '\U{205F}' || c == '\U{3000}'
  }

  predicate AllDigits(t: string)
  {
    forall k :: 0 <= k < |t| ==> IsDigit(t[k])
  }

  predicate AllSpaces(t: string)
  {
    forall k :: 0 <= k < |t| ==> IsSpace(t[k])
  }

  /** `(?:,\d{3})*`: zero or more groups of a comma and exactly three digits. */
  predicate IsGroups(t: string)
    decreases |t|
  {
    t == [] || (|t| >= 4 && t[0] == ',' && AllDigits(t[1..4]) && IsGroups(t[4..]))
  }

  /** `(?:\.\d{2})?`: nothing, or a point and exactly two digits. */
  predicate IsFraction(t: string)
  {
    t == [] || (|t| == 3 && t[0] == '.' && AllDigits(t[1..]))
  }

  /** What the capture group `(\d+(?:,\d{3})*(?:\.\d{2})?)` can match. */
  ghost predicate IsAmount(t: string)
  {
    exists i, j :: 0 < i <= j <= |t| && AllDigits(t[..i]) && IsGroups(t[i..j]) && IsFraction(t[j..])
  }

  function SpanSpaces(s: string, i: nat): (j: nat)
    requires i <= |s|
    ensures i <= j <= |s| && AllSpaces(s[i..j])
    ensures j == |s| || !IsSpace(s[j])
    decreases |s| - i
  {
    if i < |s| && IsSpace(s[i]) then SpanSpaces(s, i + 1) else i
  }

  function SpanDigits(s: string, i: nat): (j: nat)
    requires i <= |s|
    ensures i <= j <= |s| && AllDigits(s[i..j])
    ensures j == |s| || !IsDigit(s[j])
    decreases |s| - i
  {
    if i < |s| && IsDigit(s[i]) then SpanDigits(s, i + 1) else i
  }

  predicate GroupAt(s: string, i: nat)
  {
    i + 4 <= |s| && s[i] == ',' && IsDigit(s[i + 1]) && IsDigit(s[i + 2]) && IsDigit(s[i + 3])
  }

  function SpanGroups(s: string, i: nat): (j: nat)
    requires i <= |s|
    ensures i <= j <= |s| && IsGroups(s[i..j])
    ensures !GroupAt(s, j)
    decreases |s| - i
  {
    if GroupAt(s, i) then
      var j := SpanGroups(s, i + 4);
      assert s[i..j][1..4] == s[i + 1..i + 4];
      assert s[i..j][4..] == s[i + 4..j];
      j
    else
      i
  }

  predicate FractionAt(s: string, i: nat)
  {
    i + 3 <= |s| && s[i] == '.' && IsDigit(s[i + 1]) && IsDigit(s[i + 2])
  }

  /** A match of the pattern: the captured amount is `s[start..end]`; its integer
      digits end at `digitsEnd` and its comma groups at `groupsEnd`. */
  datatype Match = Match(start: nat, digitsEnd: nat, groupsEnd: nat, end: nat)

  /** One attempt of the pattern at position `i`. Because every part after `\d+`
      is optional, the engine's greedy choices never backtrack: the spaces, the
      digits and the comma groups are each taken as far as they go, and the
      fraction is taken when it is there. */
  function MatchAt(s: string, i: nat, sym: char): (r: Option<Match>)
    requires i <= |s|
    ensures r.Some? ==>
      var m := r.value;
      && i < m.start < m.digitsEnd <= m.groupsEnd <= m.end <= |s|
      && s[i] == sym && AllSpaces(s[i + 1..m.start])
      && AllDigits(s[m.start..m.digitsEnd]) && (m.digitsEnd == |s| || !IsDigit(s[m.digitsEnd]))
      && IsGroups(s[m.digitsEnd..m.groupsEnd]) && !GroupAt(s, m.groupsEnd)
      && (if FractionAt(s, m.groupsEnd) then m.end == m.groupsEnd + 3 else m.end == m.groupsEnd)
  {
    if i < |s| && s[i] == sym then
      var j := SpanSpaces(s, i + 1);
      if j < |s| && IsDigit(s[j]) then
        var d := SpanDigits(s, j);
        var g := SpanGroups(s, d);
        var e := if FractionAt(s, g) then g + 3 else g;
        Some(Match(j, d, g, e))
      else
        None
    else
      None
  }

  /** The pattern matches at `i` exactly when `s[i]` is the symbol and, after
      some run of spaces, a digit follows: `\s*` may give back spaces, but a
      space is never a digit, so no other choice can succeed. */
  lemma MatchAtCharacterized(s: string, i: nat, sym: char)
    requires i <= |s|
    ensures MatchAt(s, i, sym).Some? <==>
      i < |s| && s[i] == sym && exists j :: i < j < |s| && AllSpaces(s[i + 1..j]) && IsDigit(s[j])
  {
    if i < |s| && s[i] == sym {
      var j := SpanSpaces(s, i + 1);
      if j < |s| && IsDigit(s[j]) {
        assert AllSpaces(s[i + 1..j]);
      } else {
        forall j' | i < j' < |s| ensures !(AllSpaces(s[i + 1..j']) && IsDigit(s[j'])) {
          if j' < j {
            assert s[i + 1..j][j' - i - 1] == s[j'];
          } else if j < j' {
            assert s[i + 1..j'][j - i - 1] == s[j];
          }
        }
      }
    }
  }

  /** The text the capture group of a match holds. */
  function Captured(s: string, m: Match): string
    requires m.start <= m.end <= |s|
  {
    s[m.start..m.end]
  }

  lemma SliceOfSlice(s: string, i: nat, j: nat, a: nat, b: nat)
    requires i <= j <= |s| && a <= b <= j - i
    ensures s[i..j][a..b] == s[i + a..i + b]
  {
    assert forall k :: 0 <= k < b - a ==> s[i..j][a..b][k] == s[i + a + k];
  }

  lemma AmountFromParts(t: string, a: nat, b: nat)
    requires 0 < a <= b <= |t|
    requires AllDigits(t[..a]) && IsGroups(t[a..b]) && IsFraction(t[b..])
    ensures IsAmount(t)
  {
  }

  /** A slice made of digits, then comma groups, then a fraction is an amount. */
  lemma SliceIsAmount(s: string, start: nat, digitsEnd: nat, groupsEnd: nat, end: nat)
    requires start < digitsEnd <= groupsEnd <= end <= |s|
    requires AllDigits(s[start..digitsEnd]) && IsGroups(s[digitsEnd..groupsEnd]) && IsFraction(s[groupsEnd..end])
    ensures IsAmount(s[start..end])
  {
    var t := s[start..end];
    var a, b := digitsEnd - start, groupsEnd - start;
    SliceOfSlice(s, start, end, 0, a);
    SliceOfSlice(s, start, end, a, b);
    SliceOfSlice(s, start, end, b, end - start);
    assert t[..a] == t[0..a];
    assert t[b..] == t[b..end - start];
    AmountFromParts(t, a, b);
  }

  lemma MatchIsAmount(s: string, i: nat, sym: char)
    requires i <= |s| && MatchAt(s, i, sym).Some?
    ensures IsAmount(Captured(s, MatchAt(s, i, sym).value))
  {
    var m := MatchAt(s, i, sym).value;
    if FractionAt(s, m.groupsEnd) {
      assert s[m.groupsEnd..m.end][1..] == s[m.groupsEnd + 1..m.groupsEnd + 3];
    }
    assert IsFraction(s[m.groupsEnd..m.end]);
    SliceIsAmount(s, m.start, m.digitsEnd, m.groupsEnd, m.end);
  }

  /** `re.findall(pattern, s)` from position `from` on: scan left to right and
      resume right after each match; the result lists the captured amounts. */
  function FindAllFrom(s: string, sym: char, from: nat): seq<string>
    requires from <= |s|
    decreases |s| - from
  {
    if from == |s| then []
    else match MatchAt(s, from, sym)
      case Some(m) => [Captured(s, m)] + FindAllFrom(s, sym, m.end)
      case None => FindAllFrom(s, sym, from + 1)
  }

  /** Every amount `findall` returns is one the capture group can match. */
  lemma {:induction false} FoundAreAmounts(s: string, sym: char, from: nat)
    requires from <= |s|
    ensures forall k :: 0 <= k < |FindAllFrom(s, sym, from)| ==> IsAmount(FindAllFrom(s, sym, from)[k])
    decreases |s| - from
  {
    if from < |s| {
      match MatchAt(s, from, sym)
      case Some(m) =>
        MatchIsAmount(s, from, sym);
        FoundAreAmounts(s, sym, m.end);
      case None =>
        FoundAreAmounts(s, sym, from + 1);
    }
  }

  /** `findall` returns nothing exactly when the pattern matches at no position. */
  lemma {:induction false} FoundNothingIff(s: string, sym: char, from: nat)
    requires from <= |s|
    ensures FindAllFrom(s, sym, from) == [] <==> forall p :: from <= p < |s| ==> MatchAt(s, p, sym).None?
    decreases |s| - from
  {
    if from < |s| && MatchAt(s, from, sym).None? {
      FoundNothingIff(s, sym, from + 1);
    }
  }

  /** `re.findall(pattern, s)`: the captured amounts, left to right. */
  function FindAll(s: string, sym: char): seq<string>
  {
    FindAllFrom(s, sym, 0)
  }

  /** Over the whole text: every amount found has the captured shape, and
      nothing is found exactly when the pattern matches nowhere. */
  lemma FindAllCharacterized(s: string, sym: char)
    ensures forall k :: 0 <= k < |FindAll(s, sym)| ==> IsAmount(FindAll(s, sym)[k])
    ensures FindAll(s, sym) == [] <==> forall p :: 0 <= p < |s| ==> MatchAt(s, p, sym).None?
  {
    FoundAreAmounts(s, sym, 0);
    FoundNothingIff(s, sym, 0);
  }

  /** The first amount found is the one captured by the leftmost match in
      document order. */
  lemma {:induction false} FirstFoundIsLeftmost(s: string, sym: char, from: nat, p: nat)
    requires from <= p < |s| && MatchAt(s, p, sym).Some?
    requires forall q :: from <= q < p ==> MatchAt(s, q, sym).None?
    ensures FindAllFrom(s, sym, from) != []
    ensures FindAllFrom(s, sym, from)[0] == Captured(s, MatchAt(s, p, sym).value)
    decreases p - from
  {
    if from < p {
      assert MatchAt(s, from, sym).None?;
      FirstFoundIsLeftmost(s, sym, from + 1, p);
    }
  }

  /** A page without the currency's symbol yields no amount for it. */
  lemma NoSymbolNoAmount(s: string, sym: char)
    requires sym !in s
    ensures FindAll(s, sym) == []
  {
    forall p | 0 <= p < |s| ensures MatchAt(s, p, sym).None? {
      assert s[p] in s;
    }
    FoundNothingIff(s, sym, 0);
  }

  // ----- Reading an amount as cents -----

  function DigitValue(c: char): nat
  {
    if IsDigit(c) then c as int - '0' as int else 0
  }

  /** The decimal value of a digit string, most significant digit first. */
  function DigitsValue(t: string): nat
    decreases |t|
  {
    if t == [] then 0 else DigitsValue(t[..|t| - 1]) * 10 + DigitValue(t[|t| - 1])
  }

  /** `text.replace(",", "")`. */
  function RemoveCommas(t: string): (r: string)
    ensures ',' !in r
    ensures ',' !in t ==> r == t
    ensures |r| <= |t|
    decreases |t|
  {
    if t == [] then []
    else
      var rest := RemoveCommas(t[1..]);
      if t[0] == ',' then rest
      else
        assert ',' !in t ==> t == [t[0]] + t[1..];
        [t[0]] + rest
  }

  /** Only the commas go: every other character is kept as often as it
      occurs. */
  lemma {:induction false} RemoveCommasKeepsOthers(t: string)
    ensures multiset(RemoveCommas(t)) == multiset(t)[',' := 0]
    decreases |t|
  {
    if t != [] {
      assert t == [t[0]] + t[1..];
      RemoveCommasKeepsOthers(t[1..]);
    }
  }

  /** Removing commas keeps the order of what remains: it works piece by piece. */
  lemma {:induction false} RemoveCommasOfConcat(a: string, b: string)
    ensures RemoveCommas(a + b) == RemoveCommas(a) + RemoveCommas(b)
    decreases |a|
  {
    if a == [] {
      assert a + b == b;
    } else {
      assert (a + b)[0] == a[0];
      assert (a + b)[1..] == a[1..] + b;
      RemoveCommasOfConcat(a[1..], b);
      if a[0] != ',' {
        assert RemoveCommas(a + b) == [a[0]] + RemoveCommas(a[1..] + b);
        assert RemoveCommas(a) == [a[0]] + RemoveCommas(a[1..]);
      }
    }
  }

  /** Without their commas, thousands groups are digits only. */
  lemma {:induction false} GroupsWithoutCommas(g: string)
    requires IsGroups(g)
    ensures AllDigits(RemoveCommas(g))
    decreases |g|
  {
    if g != [] {
      assert g == [','] + g[1..4] + g[4..];
      assert ',' !in g[1..4] by {
        forall k | 0 <= k < 3 ensures g[1..4][k] != ',' {
          assert IsDigit(g[1..4][k]);
        }
      }
      RemoveCommasOfConcat([','] + g[1..4], g[4..]);
      RemoveCommasOfConcat([','], g[1..4]);
      GroupsWithoutCommas(g[4..]);
      assert RemoveCommas([',']) == [];
    }
  }

  lemma DigitsHaveNoComma(t: string)
    requires AllDigits(t)
    ensures ',' !in t
  {
    forall k | 0 <= k < |t| ensures t[k] != ',' {
      assert IsDigit(t[k]);
    }
  }

  /** `float(p)` in cents, for a comma-free amount: the digits before a final
      `.dd` times one hundred, plus the two fraction digits. */
  function PlainCents(p: string): nat
  {
    if |p| >= 3 && p[|p| - 3] == '.' then DigitsValue(p[..|p| - 3]) * 100 + DigitsValue(p[|p| - 2..])
    else DigitsValue(p) * 100
  }

  /** `float(match.replace(",", ""))`, in cents. */
  function AmountCents(m: string): nat
  {
    PlainCents(RemoveCommas(m))
  }

  /** An amount with thousands groups is read as all its integer digits, in
      order and without the commas, times one hundred, plus the two fraction
      digits when there are any: "1,234.56" is 123456 cents. */
  lemma GroupedCents(d: string, g: string, f: string)
    requires |d| > 0 && AllDigits(d) && IsGroups(g) && IsFraction(f)
    ensures AllDigits(d + RemoveCommas(g))
    ensures AmountCents(d + g + f) ==
      DigitsValue(d + RemoveCommas(g)) * 100 + (if f == [] then 0 else DigitsValue(f[1..]))
  {
    GroupsWithoutCommas(g);
    JoinedDigits(d, RemoveCommas(g));
    GroupedParts(d, g, f);
    FractionCents(d + RemoveCommas(g), f);
  }

  /** Comma-free digits and an optional fraction are read as units and cents. */
  lemma FractionCents(ds: string, f: string)
    requires AllDigits(ds) && IsFraction(f)
    ensures PlainCents(ds + f) == DigitsValue(ds) * 100 + (if f == [] then 0 else DigitsValue(f[1..]))
  {
    if f == [] {
      assert ds + f == ds;
      PlainWhole(ds);
    } else {
      assert ds + f == ds + ['.'] + f[1..];
      PlainPointed(ds, f[1..]);
    }
  }

  /** Removing the commas of digits, groups and a fraction touches only the groups. */
  lemma GroupedParts(d: string, g: string, f: string)
    requires AllDigits(d) && IsFraction(f)
    ensures RemoveCommas(d + g + f) == d + RemoveCommas(g) + f
  {
    DigitsHaveNoComma(d);
    RemoveCommasOfConcat(d + g, f);
    RemoveCommasOfConcat(d, g);
    if f != [] {
      DigitsHaveNoComma(f[1..]);
      assert f == ['.'] + f[1..];
      RemoveCommasOfConcat(['.'], f[1..]);
    }
  }

  lemma JoinedDigits(a: string, b: string)
    requires AllDigits(a) && AllDigits(b)
    ensures AllDigits(a + b)
  {
    forall k | 0 <= k < |a + b| ensures IsDigit((a + b)[k]) {
      if k >= |a| {
        assert (a + b)[k] == b[k - |a|];
      }
    }
  }

  /** Digits without a point are read as whole units. */
  lemma PlainWhole(ds: string)
    requires AllDigits(ds)
    ensures PlainCents(ds) == DigitsValue(ds) * 100
  {
    if |ds| >= 3 {
      assert IsDigit(ds[|ds| - 3]);
    }
  }

  /** Digits, a point and two digits are read as units and cents. */
  lemma PlainPointed(ds: string, f: string)
    requires |f| == 2
    ensures PlainCents(ds + ['.'] + f) == DigitsValue(ds) * 100 + DigitsValue(f)
  {
    var r := ds + ['.'] + f;
    assert r[|r| - 3] == '.';
    assert r[..|r| - 3] == ds;
    assert r[|r| - 2..] == f;
  }

  /** One more digit on the right multiplies the value by ten and adds it. */
  lemma DigitsValueSnoc(t: string, c: char)
    ensures DigitsValue(t + [c]) == DigitsValue(t) * 10 + DigitValue(c)
  {
    assert (t + [c])[..|t|] == t;
  }

  /** A single thousands group: its digits are what is left without the comma. */
  lemma OneGroup(g: string)
    requires |g| == 4 && g[0] == ',' && AllDigits(g[1..])
    ensures IsGroups(g) && RemoveCommas(g) == g[1..]
  {
    assert g[4..] == [] && g[1..4] == g[1..];
    assert g == [','] + g[1..];
    RemoveCommasOfConcat([','], g[1..]);
    DigitsHaveNoComma(g[1..]);
  }

  /** The value of four digits, most significant first. */
  lemma FourDigits(t: string)
    requires |t| == 4 && AllDigits(t)
    ensures DigitsValue(t) == ((DigitValue(t[0]) * 10 + DigitValue(t[1])) * 10 + DigitValue(t[2])) * 10 + DigitValue(t[3])
  {
    assert t == [t[0]] + [t[1]] + [t[2]] + [t[3]];
    DigitsValueSnoc([], t[0]);
    DigitsValueSnoc([t[0]], t[1]);
    DigitsValueSnoc([t[0]] + [t[1]], t[2]);
    DigitsValueSnoc([t[0]] + [t[1]] + [t[2]], t[3]);
  }

  /** `float("1,234.56".replace(",", ""))` is 1234.56: the text is given
      character by character. */
  lemma GroupedExample(m: string)
    requires |m| == 8
    requires m[0] == '1' && m[1] == ',' && m[2] == '2' && m[3] == '3' && m[4] == '4'
    requires m[5] == '.' && m[6] == '5' && m[7] == '6'
    ensures AmountCents(m) == 123456
  {
    var d, g, f := m[..1], m[1..5], m[5..];
    assert m == d + g + f;
    OneGroup(g);
    assert IsFraction(f) && f[1..] == [m[6]] + [m[7]];
    GroupedCents(d, g, f);
    var ds := d + g[1..];
    assert ds == [m[0], m[2], m[3], m[4]];
    FourDigits(ds);
    DigitsValueSnoc([], m[6]);
    DigitsValueSnoc([m[6]], m[7]);
  }

  function DigitChar(d: nat): (c: char)
    requires d < 10
    ensures IsDigit(c) && DigitValue(c) == d
  {
    ('0' as int + d) as char
  }

  /** The decimal numeral of `n`, without separators. */
  function Decimal(n: nat): (r: string)
    ensures |r| > 0 && AllDigits(r)
    ensures DigitsValue(r) == n
    decreases n
  {
    if n < 10 then [DigitChar(n)]
    else
      var r := Decimal(n / 10) + [DigitChar(n % 10)];
      assert r[..|r| - 1] == Decimal(n / 10);
      r
  }

  /** The two digits of the cents below one unit. */
  function FractionDigits(c: nat): (f: string)
    ensures |f| == 2 && AllDigits(f)
    ensures DigitsValue(f) == c % 100
  {
    var t := c % 100;
    var f := [DigitChar(t / 10), DigitChar(t % 10)];
    assert f[..1] == [f[0]] && [f[0]][..0] == [];
    assert DigitsValue([f[0]]) == t / 10;
    f
  }

  /** Digits, a point and two digits form an amount the pattern captures. */
  lemma PointedIsAmount(d: string, f: string)
    requires |d| > 0 && AllDigits(d) && |f| == 2 && AllDigits(f)
    ensures IsAmount(d + ['.'] + f)
  {
    var r := d + ['.'] + f;
    assert r[..|d|] == d;
    assert r[|d|..|d|] == [];
    assert r[|d|..] == ['.'] + f;
    assert (['.'] + f)[1..] == f;
    AmountFromParts(r, |d|, |d|);
  }

  /** Such an amount is read as its integer digits times one hundred plus the
      two fraction digits. */
  lemma PointedCents(d: string, f: string)
    requires AllDigits(d) && |f| == 2 && AllDigits(f)
    ensures AmountCents(d + ['.'] + f) == DigitsValue(d) * 100 + DigitsValue(f)
  {
    var r := d + ['.'] + f;
    assert ',' !in r by {
      forall k | 0 <= k < |r| ensures r[k] != ',' {
        if k < |d| {
          assert IsDigit(d[k]);
        } else if k > |d| {
          assert IsDigit(f[k - |d| - 1]);
        }
      }
    }
    assert RemoveCommas(r) == r;
    assert r[|r| - 3] == '.';
    assert r[..|r| - 3] == d;
    assert r[|r| - 2..] == f;
  }

  /** The amount written with two fraction digits and no thousands separators:
      12345 cents is "123.45". */
  function FormatCents(c: nat): (r: string)
    ensures IsAmount(r)
    ensures AmountCents(r) == c
  {
    var d := Decimal(c / 100);
    var f := FractionDigits(c);
    PointedIsAmount(d, f);
    PointedCents(d, f);
    d + ['.'] + f
  }

  /** The digits scan stops at the first non-digit. */
  lemma {:induction false} SpanDigitsStopsAt(s: string, i: nat, e: nat)
    requires i <= e < |s| && AllDigits(s[i..e]) && !IsDigit(s[e])
    ensures SpanDigits(s, i) == e
    decreases e - i
  {
    if i < e {
      assert s[i..e][0] == s[i];
      assert s[i + 1..e] == s[i..e][1..];
      SpanDigitsStopsAt(s, i + 1, e);
    }
  }

  /** The pattern matches a symbol followed by digits, a point and two
      digits, and captures everything after the symbol. */
  lemma PointedMatch(sym: char, d: string, f: string)
    requires |d| > 0 && AllDigits(d) && |f| == 2 && AllDigits(f)
    ensures var s := [sym] + d + ['.'] + f;
      MatchAt(s, 0, sym) == Some(Match(1, 1 + |d|, 1 + |d|, |s|))
  {
    var s := [sym] + d + ['.'] + f;
    var e := 1 + |d|;
    assert s[1..e] == d;
    assert s[e] == '.' && s[e + 1] == f[0] && s[e + 2] == f[1];
    assert IsDigit(s[1]) by { assert s[1] == d[0]; }
    assert !IsSpace(s[1]);
    assert SpanSpaces(s, 1) == 1;
    SpanDigitsStopsAt(s, 1, e);
    assert !GroupAt(s, e);
    assert SpanGroups(s, e) == e;
    assert FractionAt(s, e);
  }

  /** A symbol followed by digits, a point and two digits is found as that
      one amount. */
  lemma FindAllOfPointed(sym: char, d: string, f: string)
    requires |d| > 0 && AllDigits(d) && |f| == 2 && AllDigits(f)
    ensures FindAll([sym] + d + ['.'] + f, sym) == [d + ['.'] + f]
  {
    var s := [sym] + d + ['.'] + f;
    PointedMatch(sym, d, f);
    assert s[1..|s|] == d + ['.'] + f;
    assert FindAllFrom(s, sym, |s|) == [];
  }

  /** A page that shows one price `<symbol><amount>` yields exactly that amount. */
  lemma FindAllOfFormatted(sym: char, c: nat)
    ensures FindAll([sym] + FormatCents(c), sym) == [FormatCents(c)]
  {
    var d := Decimal(c / 100);
    var f := FractionDigits(c);
    assert [sym] + FormatCents(c) == [sym] + d + ['.'] + f;
    FindAllOfPointed(sym, d, f);
  }
}
