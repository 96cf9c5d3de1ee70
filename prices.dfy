/**
  The price parser `price_to_cents` of scraper.py: currency words are removed,
  the text is stripped, and the first `digits[.,]dd` is read as francs and
  centimes; failing that the first run of digits is read as whole francs.
 */
module Prices {
  import opened Wrappers

  predicate IsDigit(c: char) { '0' <= c <= '9' }

  predicate HasDigit(s: string) { exists c :: c in s && IsDigit(c) }

  /** Python's `str.isspace()`: the characters `strip()` removes. */
  predicate IsSpace(c: char)
  {
    var n := c as int;
    (9 <= n <= 13) || (28 <= n <= 32) || n == 0x85 || n == 0xA0 || n == 0x1680
    || (0x2000 <= n <= 0x200A) || n == 0x2028 || n == 0x2029 || n == 0x202F
    || n == 0x205F || n == 0x3000
  }

  function Pow10(n: nat): (p: nat)
    ensures p >= 1
  {
    if n == 0 then 1 else 10 * Pow10(n - 1)
  }

  function DigitValue(c: char): (d: nat)
    requires IsDigit(c)
    ensures d < 10
  {
    c as int - '0' as int
  }

  /** `int(s)` for a string of ASCII digits (leading zeros allowed). */
  function DigitsValue(s: string): (v: nat)
    requires forall i :: 0 <= i < |s| ==> IsDigit(s[i])
    ensures v < Pow10(|s|)
  {
    if s == [] then 0
    else DigitsValue(s[..|s| - 1]) * 10 + DigitValue(s[|s| - 1])
  }

  /** `s.replace(pat, "")`: one left-to-right pass that drops every
      non-overlapping occurrence of `pat`. */
  function RemoveAll(s: string, pat: string): (r: string)
    requires pat != []
    ensures |r| <= |s|
    decreases |s|
  {
    if |s| < |pat| then s
    else if s[..|pat|] == pat then RemoveAll(s[|pat|..], pat)
    else [s[0]] + RemoveAll(s[1..], pat)
  }

  /** Removing a pattern never introduces a character. */
  lemma {:induction false} RemoveAllFrom(s: string, pat: string, c: char)
    requires pat != [] && c in RemoveAll(s, pat)
    ensures c in s
    decreases |s|
  {
    if |s| < |pat| {
    } else if s[..|pat|] == pat {
      RemoveAllFrom(s[|pat|..], pat, c);
    } else if c != s[0] {
      RemoveAllFrom(s[1..], pat, c);
    }
  }

  /** A character that does not occur in the pattern is never removed. */
  lemma {:induction false} RemoveAllKeeps(s: string, pat: string, c: char)
    requires pat != [] && c in s && c !in pat
    ensures c in RemoveAll(s, pat)
    decreases |s|
  {
    if |s| < |pat| {
    } else if s[..|pat|] == pat {
      assert s == pat + s[|pat|..];
      RemoveAllKeeps(s[|pat|..], pat, c);
    } else if c != s[0] {
      assert s == [s[0]] + s[1..];
      RemoveAllKeeps(s[1..], pat, c);
    }
  }

  /** How many whitespace characters `lstrip()` removes from the front. */
  function LeadingSpace(s: string): (n: nat)
    ensures n <= |s|
    ensures forall i :: 0 <= i < n ==> IsSpace(s[i])
    ensures n == |s| || !IsSpace(s[n])
  {
    if s != [] && IsSpace(s[0]) then 1 + LeadingSpace(s[1..]) else 0
  }

  /** How many whitespace characters `rstrip()` removes from the back. */
  function TrailingSpace(s: string): (n: nat)
    ensures n <= |s|
    ensures forall i :: |s| - n <= i < |s| ==> IsSpace(s[i])
    ensures n == |s| || !IsSpace(s[|s| - n - 1])
  {
    if s != [] && IsSpace(s[|s| - 1]) then 1 + TrailingSpace(s[..|s| - 1]) else 0
  }

  /** `s.strip()` */
  function Strip(s: string): (r: string)
    ensures r == [] || (!IsSpace(r[0]) && !IsSpace(r[|r| - 1]))
    ensures exists a, b ::
              && 0 <= a <= b <= |s| && r == s[a..b]
              && (forall i :: 0 <= i < a ==> IsSpace(s[i]))
              && (forall i :: b <= i < |s| ==> IsSpace(s[i]))
  {
    var a := LeadingSpace(s);
    if a == |s| then
      assert s[a..a] == [];
      []
    else
      var b := |s| - TrailingSpace(s);
      s[a..b]
  }

  /** `strip()` drops whitespace and nothing else. */
  lemma StripKeeps(s: string, c: char)
    ensures c in Strip(s) ==> c in s
    ensures c in s && !IsSpace(c) ==> c in Strip(s)
  {
    var a := LeadingSpace(s);
    var r := Strip(s);
    if c in s && !IsSpace(c) {
      var k :| 0 <= k < |s| && s[k] == c;
      var b := |s| - TrailingSpace(s);
      assert a <= k < b;
      assert r == s[a..b];
      assert r[k - a] == c;
    }
  }

  /** The text `price_to_cents` searches: `CHF`, `Fr.` and `CHF.` removed in
      that order, then stripped. */
  function Clean(text: string): (t: string)
    ensures t == [] || (!IsSpace(t[0]) && !IsSpace(t[|t| - 1]))
  {
    Strip(RemoveAll(RemoveAll(RemoveAll(text, "CHF"), "Fr."), "CHF."))
  }

  /** None of the currency words holds a digit, so cleaning keeps every
      digit of the text and adds none. */
  lemma CleanKeepsDigits(text: string)
    ensures HasDigit(Clean(text)) <==> HasDigit(text)
  {
    var a := RemoveAll(text, "CHF");
    var b := RemoveAll(a, "Fr.");
    var d := RemoveAll(b, "CHF.");
    if HasDigit(text) {
      var c :| c in text && IsDigit(c);
      RemoveAllKeeps(text, "CHF", c);
      RemoveAllKeeps(a, "Fr.", c);
      RemoveAllKeeps(b, "CHF.", c);
      StripKeeps(d, c);
    }
    if HasDigit(Clean(text)) {
      var c :| c in Clean(text) && IsDigit(c);
      StripKeeps(d, c);
      RemoveAllFrom(b, "CHF.", c);
      RemoveAllFrom(a, "Fr.", c);
      RemoveAllFrom(text, "CHF", c);
    }
  }

  /** Length of the maximal run of digits that starts at `i`. */
  function RunLength(t: string, i: nat): (n: nat)
    requires i <= |t|
    ensures i + n <= |t|
    ensures forall j :: i <= j < i + n ==> IsDigit(t[j])
    ensures i + n < |t| ==> !IsDigit(t[i + n])
    decreases |t| - i
  {
    if i < |t| && IsDigit(t[i]) then 1 + RunLength(t, i + 1) else 0
  }

  /** The regular expression `(\d+)[\.,](\d{2})` matches at `i` with its first
      group capturing `k` digits. */
  predicate DecimalMatch(t: string, i: nat, k: nat)
  {
    && 1 <= k && i + k + 2 < |t|
    && (forall j :: i <= j < i + k ==> IsDigit(t[j]))
    && (t[i + k] == '.' || t[i + k] == ',')
    && IsDigit(t[i + k + 1]) && IsDigit(t[i + k + 2])
  }

  /** Some match starts at `i`; the group is then the whole digit run. */
  predicate DecimalAt(t: string, i: nat)
    requires i <= |t|
  {
    DecimalMatch(t, i, RunLength(t, i))
  }

  /** A match starting at `i` can only capture the whole digit run there,
      so backtracking of the greedy `\d+` never yields another split. */
  lemma DecimalMatchIsGreedy(t: string, i: nat, k: nat)
    requires i <= |t|
    requires DecimalMatch(t, i, k)
    ensures k == RunLength(t, i) && DecimalAt(t, i)
  {
  }

  /** `re.search(r"(\d+)[\.,](\d{2})", t[i..])`: the leftmost start. */
  function SearchDecimal(t: string, i: nat): (m: Option<nat>)
    requires i <= |t|
    ensures m.Some? ==> i <= m.value < |t| && DecimalAt(t, m.value)
    ensures m.Some? ==> forall j :: i <= j < m.value ==> !DecimalAt(t, j)
    ensures m.None? ==> forall j :: i <= j < |t| ==> !DecimalAt(t, j)
    decreases |t| - i
  {
    if i == |t| then None
    else if DecimalAt(t, i) then Some(i)
    else SearchDecimal(t, i + 1)
  }

  /** `re.search(r"\d+", t[i..])`: where the first digit run starts. */
  function SearchDigits(t: string, i: nat): (m: Option<nat>)
    requires i <= |t|
    ensures m.Some? ==> i <= m.value < |t| && IsDigit(t[m.value])
    ensures m.Some? ==> forall j :: i <= j < m.value ==> !IsDigit(t[j])
    ensures m.None? ==> forall j :: i <= j < |t| ==> !IsDigit(t[j])
    decreases |t| - i
  {
    if i == |t| then None
    else if IsDigit(t[i]) then Some(i)
    else SearchDigits(t, i + 1)
  }

  /** The two searches of `price_to_cents` on the cleaned text. */
  function ParseCleaned(t: string): (r: Option<int>)
    ensures r.None? <==> !HasDigit(t)
    ensures r.Some? ==> r.value >= 0
  {
    match SearchDecimal(t, 0)
    case Some(i) =>
      var n := RunLength(t, i);
      assert t[i] in t;
      Some(DigitsValue(t[i..i + n]) * 100 + DigitsValue(t[i + n + 1..i + n + 3]))
    case None =>
      match SearchDigits(t, 0)
      case Some(i) =>
        assert t[i] in t;
        Some(DigitsValue(t[i..i + RunLength(t, i)]) * 100)
      case None => None
  }

  /** `price_to_cents(text)`: `None` exactly when the text holds no digit;
      otherwise a non-negative number of centimes. */
  function PriceToCents(text: string): (r: Option<int>)
    ensures text != [] ==> r == ParseCleaned(Clean(text))
    ensures r.None? <==> !HasDigit(text)
    ensures r.Some? ==> r.value >= 0
  {
    if text == [] then None
    else
      CleanKeepsDigits(text);
      ParseCleaned(Clean(text))
  }

  /** On a `d+[.,]dd` match the centimes are `int(d+) * 100 + int(dd)`: the
      francs are the quotient by 100 and the two fraction digits the remainder. */
  lemma DecimalPriceSplits(t: string, i: nat)
    requires SearchDecimal(t, 0) == Some(i)
    ensures var n := RunLength(t, i);
      && ParseCleaned(t) == Some(DigitsValue(t[i..i + n]) * 100 + DigitsValue(t[i + n + 1..i + n + 3]))
      && ParseCleaned(t).value / 100 == DigitsValue(t[i..i + n])
      && ParseCleaned(t).value % 100 == DigitsValue(t[i + n + 1..i + n + 3])
  {
    var n := RunLength(t, i);
    SplitCents(ParseCleaned(t), DigitsValue(t[i..i + n]), t[i + n + 1..i + n + 3]);
  }

  /** A price of `whole * 100 + int(ff)` centimes, with `ff` two digits,
      splits back into `whole` francs and `int(ff)` centimes. */
  lemma SplitCents(p: Option<int>, whole: nat, ff: string)
    requires |ff| == 2 && IsDigit(ff[0]) && IsDigit(ff[1])
    requires p == Some(whole * 100 + DigitsValue(ff))
    ensures p.Some? && p.value / 100 == whole && p.value % 100 == DigitsValue(ff)
  {
    assert Pow10(2) == 100;
    DivModCents(p.value, whole, DigitsValue(ff));
  }

  lemma DivModCents(v: int, whole: nat, frac: nat)
    requires frac < 100 && v == whole * 100 + frac
    ensures v / 100 == whole && v % 100 == frac
  {
  }

  /** Without a `d+[.,]dd` match the price is the first digit run in whole
      francs, so it is always a multiple of 100. */
  lemma WholePriceIsFirstRun(t: string, i: nat)
    requires SearchDecimal(t, 0).None?
    requires SearchDigits(t, 0) == Some(i)
    ensures ParseCleaned(t) == Some(DigitsValue(t[i..i + RunLength(t, i)]) * 100)
    ensures ParseCleaned(t).value % 100 == 0
  {
    DivModCents(ParseCleaned(t).value, DigitsValue(t[i..i + RunLength(t, i)]), 0);
  }

  /** Text without any currency word or whitespace is searched as it is. */
  lemma {:induction false} RemoveAllAbsent(s: string, pat: string)
    requires pat != [] && pat[0] !in s
    ensures RemoveAll(s, pat) == s
    decreases |s|
  {
    if |s| >= |pat| {
      assert s[..|pat|][0] == s[0];
      RemoveAllAbsent(s[1..], pat);
      assert s == [s[0]] + s[1..];
    }
  }

  /** `CFr.HF.12` holds no `CHF`, so the first pass keeps it. */
  lemma NoCHFInExample()
    ensures RemoveAll("CFr.HF.12", "CHF") == "CFr.HF.12"
  {
    var s := "CFr.HF.12";
    assert s[..3][1] != "CHF"[1] && s[1..] == "Fr.HF.12";
    RemoveAllAbsent("Fr.HF.12", "CHF");
    assert s == [s[0]] + s[1..];
  }

  /** `HF.12` holds no `Fr.`, so removing it keeps the text. */
  lemma NoFrAfterExample()
    ensures RemoveAll("HF.12", "Fr.") == "HF.12"
  {
    RemoveAllAbsent(".12", "Fr.");
    assert "F.12"[..3][1] != "Fr."[1] && "F.12"[1..] == ".12";
    assert RemoveAll("F.12", "Fr.") == "F.12";
    assert "HF.12"[..3][0] != "Fr."[0] && "HF.12"[1..] == "F.12";
  }

  /** A leading `Fr.` is dropped. */
  lemma FrDroppedFromExample()
    ensures RemoveAll("Fr.HF.12", "Fr.") == "HF.12"
  {
    NoFrAfterExample();
    assert "Fr.HF.12"[..3] == "Fr." && "Fr.HF.12"[3..] == "HF.12";
  }

  /** Removing `Fr.` can create a `CHF.`: in `CFr.HF.12` the `C` and the
      `HF.` around `Fr.` join once it is gone. */
  lemma FrRemovalJoinsCHF()
    ensures RemoveAll("CFr.HF.12", "Fr.") == "CHF.12"
  {
    var s := "CFr.HF.12";
    FrDroppedFromExample();
    assert s[..3][0] != "Fr."[0] && s[1..] == "Fr.HF.12";
    assert RemoveAll(s, "Fr.") == [s[0]] + RemoveAll(s[1..], "Fr.");
    assert [s[0]] + "HF.12" == "CHF.12";
  }

  /** A leading `CHF.` is dropped. */
  lemma CHFDotDroppedFromExample()
    ensures RemoveAll("CHF.12", "CHF.") == "12"
  {
    assert "CHF.12"[..4] == "CHF." && "CHF.12"[4..] == "12";
    RemoveAllAbsent("12", "CHF.");
  }

  /** The third replacement can fire: the `CHF.` that removing `Fr.` creates
      is removed by the third pass, so `CFr.HF.12` is searched as `12`. */
  lemma ThirdReplacementFires()
    ensures RemoveAll(RemoveAll("CFr.HF.12", "CHF"), "Fr.") == "CHF.12"
    ensures Clean("CFr.HF.12") == "12"
  {
    NoCHFInExample();
    FrRemovalJoinsCHF();
    CHFDotDroppedFromExample();
    CleanPlain("12");
    RemoveAllAbsent("12", "CHF");
    RemoveAllAbsent("12", "Fr.");
  }

  /** A leading `CHF` is dropped. */
  lemma CHFDroppedFromJoined()
    ensures RemoveAll("CHFHF.12", "CHF") == "HF.12"
  {
    assert "CHFHF.12"[..3] == "CHF" && "CHFHF.12"[3..] == "HF.12";
    RemoveAllAbsent("HF.12", "CHF");
  }

  /** Removing `CHF` can itself create a `CHF.`: in `CCHFHF.12` the `C` and
      the `HF.` around the removed `CHF` join. */
  lemma CHFRemovalJoinsCHF()
    ensures RemoveAll("CCHFHF.12", "CHF") == "CHF.12"
  {
    var s := "CCHFHF.12";
    CHFDroppedFromJoined();
    assert s[..3][1] != "CHF"[1] && s[1..] == "CHFHF.12";
    assert RemoveAll(s, "CHF") == [s[0]] + RemoveAll(s[1..], "CHF");
    assert [s[0]] + "HF.12" == "CHF.12";
  }

  /** `CHF.12` holds no `Fr.`, so the second pass keeps it. */
  lemma NoFrInJoined()
    ensures RemoveAll("CHF.12", "Fr.") == "CHF.12"
  {
    var s := "CHF.12";
    NoFrAfterExample();
    assert s[..3][0] != "Fr."[0] && s[1..] == "HF.12";
    assert RemoveAll(s, "Fr.") == [s[0]] + RemoveAll(s[1..], "Fr.");
  }

  /** The third replacement also removes a `CHF.` that the first one
      creates, so `CCHFHF.12` is searched as `12`. */
  lemma FirstReplacementFeedsThird()
    ensures Clean("CCHFHF.12") == "12"
  {
    CHFRemovalJoinsCHF();
    NoFrInJoined();
    CHFDotDroppedFromExample();
    CleanPlain("12");
    RemoveAllAbsent("12", "CHF");
    RemoveAllAbsent("12", "Fr.");
  }

  /** Text with no `C`, no `F` and no surrounding whitespace is searched as it is. */
  lemma CleanPlain(text: string)
    requires 'C' !in text && 'F' !in text
    requires text == [] || (!IsSpace(text[0]) && !IsSpace(text[|text| - 1]))
    ensures Clean(text) == text
  {
    RemoveAllAbsent(text, "CHF");
    RemoveAllAbsent(text, "Fr.");
    RemoveAllAbsent(text, "CHF.");
  }

  /** A plain `francs.centimes` text such as `12.50` (digits, a point or a
      comma, two digits, nothing else) gives `francs * 100 + centimes`. */
  lemma PlainDecimalPrice(text: string, n: nat)
    requires 0 < n && |text| == n + 3
    requires forall j :: 0 <= j < n ==> IsDigit(text[j])
    requires text[n] == '.' || text[n] == ','
    requires IsDigit(text[n + 1]) && IsDigit(text[n + 2])
    ensures PriceToCents(text) == Some(DigitsValue(text[..n]) * 100 + DigitsValue(text[n + 1..]))
  {
    PlainDecimalIsClean(text, n);
    PlainDecimalParse(text, n);
  }

  lemma PlainDecimalIsClean(text: string, n: nat)
    requires 0 < n && |text| == n + 3
    requires forall j :: 0 <= j < n ==> IsDigit(text[j])
    requires text[n] == '.' || text[n] == ','
    requires IsDigit(text[n + 1]) && IsDigit(text[n + 2])
    ensures Clean(text) == text
  {
    assert 'C' !in text && 'F' !in text by {
      forall j | 0 <= j < |text| ensures text[j] != 'C' && text[j] != 'F' {
        if j < n { assert IsDigit(text[j]); }
      }
    }
    CleanPlain(text);
  }

  lemma PlainDecimalParse(text: string, n: nat)
    requires 0 < n && |text| == n + 3
    requires forall j :: 0 <= j < n ==> IsDigit(text[j])
    requires text[n] == '.' || text[n] == ','
    requires IsDigit(text[n + 1]) && IsDigit(text[n + 2])
    ensures ParseCleaned(text) == Some(DigitsValue(text[..n]) * 100 + DigitsValue(text[n + 1..]))
  {
    RunLengthOfDigits(text, 0, n);
    assert DecimalAt(text, 0);
    assert SearchDecimal(text, 0) == Some(0);
    assert text[0..n] == text[..n];
    assert text[n + 1..n + 3] == text[n + 1..];
    DecimalPriceSplits(text, 0);
  }

  /** The digit run starting at `i` reaches exactly to the first non-digit. */
  lemma {:induction false} RunLengthOfDigits(t: string, i: nat, n: nat)
    requires i + n <= |t|
    requires forall j :: i <= j < i + n ==> IsDigit(t[j])
    requires i + n < |t| ==> !IsDigit(t[i + n])
    ensures RunLength(t, i) == n
    decreases n
  {
    if n > 0 {
      RunLengthOfDigits(t, i + 1, n - 1);
    }
  }
}
