/**
 * The price normaliser `formatPrice` (src/lib/utils.ts; the controller carries
 * an identical copy). It turns a Brazilian price text such as "R$ 1.234,56"
 * into a decimal-dot text such as "1234.56". The numeric value computed by the
 * source's `parseFloat` is discarded there, so it does not appear here.
 */
module Price {
  import opened Text

  const CurrencyMark := "R$"

  /** `replace(/^R\$\s?/, "")`: a leading currency mark and at most one white-space character. */
  function StripCurrency(s: string): (r: string)
    ensures |r| <= |s| && r == s[|s| - |r|..]
    ensures !StartsWith(s, CurrencyMark) ==> r == s
    ensures StartsWith(s, CurrencyMark) ==>
      && (|s| - |r| == 2 || |s| - |r| == 3)
      && (|s| - |r| == 3 <==> |s| > 2 && IsSpace(s[2]))
  {
    if StartsWith(s, CurrencyMark) then
      if |s| > 2 && IsSpace(s[2]) then s[3..] else s[2..]
    else s
  }

  predicate IsSeparator(c: char) {
    c == '.' || c == ','
  }

  /** `s.replace(/c/g, d)` for one character. */
  function ReplaceChar(s: string, c: char, d: char): (r: string)
    ensures |r| == |s|
    ensures c != d ==> c !in r
    ensures c !in s ==> r == s
    decreases |s|
  {
    if |s| == 0 then []
    else [if s[0] == c then d else s[0]] + ReplaceChar(s[1..], c, d)
  }

  /** `s.replace(/c/g, "")` for one character. */
  function RemoveChar(s: string, c: char): (r: string)
    ensures c !in r
    ensures c !in s ==> r == s
    ensures c in s ==> |r| < |s|
    decreases |s|
  {
    if |s| == 0 then []
    else if s[0] == c then RemoveChar(s[1..], c)
    else [s[0]] + RemoveChar(s[1..], c)
  }

  /** The text with every `.` and `,` left out: what the normaliser must not disturb. */
  function Bare(s: string): string
    decreases |s|
  {
    if |s| == 0 then []
    else if IsSeparator(s[0]) then Bare(s[1..])
    else [s[0]] + Bare(s[1..])
  }

  /** The separator rewrite: when both separators occur, dots group thousands and the
      comma is the decimal point; otherwise every comma becomes a decimal point. */
  function Unlocalise(t: string): string {
    if ',' in t && '.' in t then ReplaceChar(RemoveChar(t, '.'), ',', '.')
    else ReplaceChar(t, ',', '.')
  }

  /** `u.split(".")` has two pieces and the second is three characters long:
      a single dot followed by exactly three characters, read as a thousands separator. */
  predicate ThousandsShaped(u: string) {
    var parts := Split(u, ".");
    |parts| == 2 && |parts[1]| == 3
  }

  /** `formatPrice`. */
  function FormatPrice(s: string): (r: string)
    ensures ',' !in r
    ensures !ThousandsShaped(r)
  {
    var u := Unlocalise(StripCurrency(s));
    if ThousandsShaped(u) then
      var r := RemoveChar(u, '.');
      RemoveKeepsAbsent(u, '.', ',');
      SplitWithoutDot(r);
      r
    else u
  }

  /** Apart from the separators, the normaliser keeps every character of the text
      after the currency mark, in order: it only deletes or rewrites `.` and `,`. */
  lemma KeepsNonSeparators(s: string)
    ensures Bare(FormatPrice(s)) == Bare(StripCurrency(s))
  {
    var u := Unlocalise(StripCurrency(s));
    BareUnlocalise(StripCurrency(s));
    BareRemove(u, '.');
  }

  lemma {:induction false} RemoveKeepsAbsent(s: string, x: char, c: char)
    requires c !in s
    ensures c !in RemoveChar(s, x)
    decreases |s|
  {
    if |s| > 0 {
      RemoveKeepsAbsent(s[1..], x, c);
    }
  }

  lemma {:induction false} BareReplace(s: string, c: char, d: char)
    requires IsSeparator(c) && IsSeparator(d)
    ensures Bare(ReplaceChar(s, c, d)) == Bare(s)
    decreases |s|
  {
    if |s| > 0 {
      BareReplace(s[1..], c, d);
    }
  }

  lemma {:induction false} BareRemove(s: string, c: char)
    requires IsSeparator(c)
    ensures Bare(RemoveChar(s, c)) == Bare(s)
    decreases |s|
  {
    if |s| > 0 {
      BareRemove(s[1..], c);
    }
  }

  lemma BareUnlocalise(t: string)
    ensures Bare(Unlocalise(t)) == Bare(t)
  {
    BareRemove(t, '.');
    BareReplace(t, ',', '.');
    BareReplace(RemoveChar(t, '.'), ',', '.');
  }

  /** A text without a dot is one piece when split on dots. */
  lemma SplitWithoutDot(s: string)
    requires '.' !in s
    ensures Split(s, ".") == [s]
  {
    ContainsChar(s, '.');
  }

  /** A text with exactly one dot splits into the text before and after it. */
  lemma SplitOneDot(a: string, b: string)
    requires '.' !in a && '.' !in b
    ensures Split(a + "." + b, ".") == [a, b]
  {
    var s := a + "." + b;
    assert OccursAt(s, ".", |a|) by {
      assert s[|a|..|a| + 1] == ".";
    }
    forall j: nat | j < |a|
      ensures !OccursAt(s, ".", j)
    {
      assert s[j..j + 1][0] == s[j] == a[j];
    }
    var i := IndexOf(s, ".").value;
    assert i == |a|;
    assert s[..i] == a;
    assert s[i + 1..] == b;
    SplitWithoutDot(b);
    assert Split(s, ".") == [a] + Split(b, ".");
  }

  lemma {:induction false} ReplaceAppend(a: string, b: string, c: char, d: char)
    ensures ReplaceChar(a + b, c, d) == ReplaceChar(a, c, d) + ReplaceChar(b, c, d)
    decreases |a|
  {
    if |a| > 0 {
      assert (a + b)[1..] == a[1..] + b;
      ReplaceAppend(a[1..], b, c, d);
    } else {
      assert a + b == b;
    }
  }

  lemma {:induction false} RemoveAppend(a: string, b: string, c: char)
    ensures RemoveChar(a + b, c) == RemoveChar(a, c) + RemoveChar(b, c)
    decreases |a|
  {
    if |a| > 0 {
      assert (a + b)[1..] == a[1..] + b;
      RemoveAppend(a[1..], b, c);
    } else {
      assert a + b == b;
    }
  }

  /** A character that is in no piece and not in the separator is not in the joined text. */
  lemma {:induction false} JoinAvoids(gs: seq<string>, sep: string, c: char)
    requires c !in sep
    requires forall k :: 0 <= k < |gs| ==> c !in gs[k]
    ensures c !in Join(gs, sep)
    decreases |gs|
  {
    if |gs| > 1 {
      JoinAvoids(gs[1..], sep, c);
    }
  }

  /** Removing the dots of a dot-joined list of dot-free pieces concatenates the pieces. */
  lemma {:induction false} RemoveDotsOfJoin(gs: seq<string>)
    requires forall k :: 0 <= k < |gs| ==> '.' !in gs[k]
    ensures RemoveChar(Join(gs, "."), '.') == Join(gs, "")
    decreases |gs|
  {
    if |gs| > 1 {
      RemoveDotsOfJoin(gs[1..]);
      RemoveAppend(gs[0] + ".", Join(gs[1..], "."), '.');
      RemoveAppend(gs[0], ".", '.');
      assert Join(gs, "") == gs[0] + "" + Join(gs[1..], "");
    }
  }

  /** A dot-joined list of dot-free pieces has a dot only when there are two pieces or more. */
  lemma ShortJoin(gs: seq<string>)
    requires |gs| <= 1
    ensures Join(gs, ".") == Join(gs, "")
  {
  }

  /**
   * A price as a Brazilian page prints it — the currency mark, one space, the
   * integer digits in dot-separated groups, a comma and the cents — comes out as
   * the groups run together, a decimal dot and the cents.
   */
  lemma BrazilianPrice(groups: seq<string>, cents: string)
    requires forall k :: 0 <= k < |groups| ==> '.' !in groups[k] && ',' !in groups[k]
    requires '.' !in cents && ',' !in cents && |cents| != 3
    ensures FormatPrice("R$ " + (Join(groups, ".") + "," + cents)) == Join(groups, "") + "." + cents
  {
    var t := Join(groups, ".") + "," + cents;
    var w := Join(groups, "") + "." + cents;
    StripSpacedMark(t);
    UnlocaliseBrazilian(groups, cents);
    JoinAvoids(groups, "", '.');
    SplitOneDot(Join(groups, ""), cents);
    FormatUnshaped("R$ " + t, w);
  }

  /** The currency mark and the one space after it are dropped. */
  lemma StripSpacedMark(t: string)
    ensures StripCurrency("R$ " + t) == t
  {
    var s := "R$ " + t;
    assert s[..2] == CurrencyMark && IsSpace(s[2]);
    assert s[3..] == t;
  }

  /** When the rewritten text is not thousands-shaped it is the result. */
  lemma FormatUnshaped(s: string, w: string)
    requires Unlocalise(StripCurrency(s)) == w && !ThousandsShaped(w)
    ensures FormatPrice(s) == w
  {
  }

  /** The separator rewrite of a Brazilian price body. */
  lemma UnlocaliseBrazilian(groups: seq<string>, cents: string)
    requires forall k :: 0 <= k < |groups| ==> '.' !in groups[k] && ',' !in groups[k]
    requires '.' !in cents && ',' !in cents
    ensures Unlocalise(Join(groups, ".") + "," + cents) == Join(groups, "") + "." + cents
  {
    JoinAvoids(groups, "", '.');
    JoinAvoids(groups, "", ',');
    JoinAvoids(groups, ".", ',');
    CommaToDot(Join(groups, ""), cents);
    if |groups| <= 1 {
      UnlocaliseOneGroup(groups, cents);
    } else {
      UnlocaliseGroups(groups, cents);
    }
  }

  lemma UnlocaliseOneGroup(groups: seq<string>, cents: string)
    requires forall k :: 0 <= k < |groups| ==> '.' !in groups[k] && ',' !in groups[k]
    requires '.' !in cents && ',' !in cents
    requires |groups| <= 1
    requires ReplaceChar(Join(groups, "") + "," + cents, ',', '.') == Join(groups, "") + "." + cents
    ensures Unlocalise(Join(groups, ".") + "," + cents) == Join(groups, "") + "." + cents
  {
    var t := Join(groups, ".") + "," + cents;
    JoinAvoids(groups, "", '.');
    ShortJoin(groups);
    assert '.' !in t;
    assert Unlocalise(t) == ReplaceChar(t, ',', '.');
  }

  lemma UnlocaliseGroups(groups: seq<string>, cents: string)
    requires forall k :: 0 <= k < |groups| ==> '.' !in groups[k] && ',' !in groups[k]
    requires '.' !in cents && ',' !in cents
    requires |groups| > 1
    requires ReplaceChar(Join(groups, "") + "," + cents, ',', '.') == Join(groups, "") + "." + cents
    ensures Unlocalise(Join(groups, ".") + "," + cents) == Join(groups, "") + "." + cents
  {
    var dotted := Join(groups, ".");
    var t := dotted + "," + cents;
    assert t[|groups[0]|] == '.' by {
      assert dotted == groups[0] + "." + Join(groups[1..], ".");
    }
    assert t[|dotted|] == ',';
    RemoveDots(groups, cents);
    assert Unlocalise(t) == ReplaceChar(RemoveChar(t, '.'), ',', '.');
  }

  lemma CommaToDot(whole: string, cents: string)
    requires ',' !in whole && ',' !in cents
    ensures ReplaceChar(whole + "," + cents, ',', '.') == whole + "." + cents
  {
    ReplaceAppend(whole + ",", cents, ',', '.');
    ReplaceAppend(whole, ",", ',', '.');
    assert ReplaceChar(",", ',', '.') == ".";
  }

  lemma RemoveDots(groups: seq<string>, cents: string)
    requires forall k :: 0 <= k < |groups| ==> '.' !in groups[k]
    requires '.' !in cents
    ensures RemoveChar(Join(groups, ".") + "," + cents, '.') == Join(groups, "") + "," + cents
  {
    var dotted := Join(groups, ".");
    RemoveAppend(dotted + ",", cents, '.');
    RemoveAppend(dotted, ",", '.');
    RemoveDotsOfJoin(groups);
    assert RemoveChar(",", '.') == ",";
  }

  /**
   * On a text that does not start with the currency mark, the normaliser changes
   * nothing exactly when the text has no comma and no thousands-shaped dot.
   */
  lemma FixedPoint(s: string)
    requires !StartsWith(s, CurrencyMark)
    ensures FormatPrice(s) == s <==> ',' !in s && !ThousandsShaped(s)
  {
    if ',' !in s {
      assert Unlocalise(s) == s;
      if ThousandsShaped(s) {
        ContainsChar(s, '.');
        assert '.' in s;
      }
    }
  }

  /** Normalising twice is normalising once, unless the first result still starts with the mark. */
  lemma Idempotent(s: string)
    requires !StartsWith(FormatPrice(s), CurrencyMark)
    ensures FormatPrice(FormatPrice(s)) == FormatPrice(s)
  {
    FixedPoint(FormatPrice(s));
  }

  /**
   * A single dot followed by exactly three characters is a thousands separator and
   * is dropped ("1.234" becomes "1234").
   */
  lemma LoneThousandsDot(a: string, b: string)
    requires '.' !in a && ',' !in a && '.' !in b && ',' !in b && |b| == 3
    requires !StartsWith(a + "." + b, CurrencyMark)
    ensures FormatPrice(a + "." + b) == a + b
  {
    SplitOneDot(a, b);
    assert ',' !in a + "." + b;
    FormatOfShaped(a + "." + b);
    RemoveDotBetween(a, b);
  }

  /** A plain text shaped like a thousands group loses its dot. */
  lemma FormatOfShaped(s: string)
    requires !StartsWith(s, CurrencyMark) && ',' !in s && ThousandsShaped(s)
    ensures FormatPrice(s) == RemoveChar(s, '.')
  {
    assert StripCurrency(s) == s;
    assert Unlocalise(s) == s;
  }

  lemma RemoveDotBetween(a: string, b: string)
    requires '.' !in a && '.' !in b
    ensures RemoveChar(a + "." + b, '.') == a + b
  {
    RemoveTrailingDot(a);
    RemoveAppend(a + ".", b, '.');
  }

  lemma RemoveTrailingDot(a: string)
    requires '.' !in a
    ensures RemoveChar(a + ".", '.') == a
  {
    RemoveAppend(a, ".", '.');
  }

  /** A Brazilian price below a thousand: `R$ 19,90`. */
  lemma BrazilianUnits(whole: string, cents: string)
    requires '.' !in whole && ',' !in whole && '.' !in cents && ',' !in cents && |cents| != 3
    ensures FormatPrice("R$ " + (whole + "," + cents)) == whole + "." + cents
  {
    BrazilianPrice([whole], cents);
  }

  /** A Brazilian price with one thousands dot: `R$ 1.234,56`. */
  lemma BrazilianThousands(thousands: string, units: string, cents: string)
    requires '.' !in thousands && ',' !in thousands && '.' !in units && ',' !in units
    requires '.' !in cents && ',' !in cents && |cents| != 3
    ensures FormatPrice("R$ " + (thousands + "." + units + "," + cents)) == thousands + units + "." + cents
  {
    var t := thousands + "." + units + "," + cents;
    var w := thousands + units + "." + cents;
    StripSpacedMark(t);
    UnlocaliseThousands(thousands, units, cents);
    assert '.' !in thousands + units;
    SplitOneDot(thousands + units, cents);
    FormatUnshaped("R$ " + t, w);
  }

  lemma UnlocaliseThousands(thousands: string, units: string, cents: string)
    requires '.' !in thousands && ',' !in thousands && '.' !in units && ',' !in units
    requires '.' !in cents && ',' !in cents
    ensures Unlocalise(thousands + "." + units + "," + cents) == thousands + units + "." + cents
  {
    var head, tail := thousands + "." + units, "," + cents;
    var t := head + tail;
    var whole := thousands + units;
    assert t == thousands + "." + units + "," + cents;
    assert t[|thousands|] == '.' && t[|head|] == ',';
    assert Unlocalise(t) == ReplaceChar(RemoveChar(t, '.'), ',', '.');
    RemoveAppend(head, tail, '.');
    RemoveDotBetween(thousands, units);
    assert '.' !in tail;
    assert RemoveChar(t, '.') == whole + "," + cents;
    assert ',' !in whole;
    CommaToDot(whole, cents);
  }

  /** Digits, a decimal dot and cents that are not three long are already canonical. */
  lemma CanonicalDecimal(whole: string, cents: string)
    requires '.' !in whole && ',' !in whole && '.' !in cents && ',' !in cents && |cents| != 3
    requires !StartsWith(whole + "." + cents, CurrencyMark)
    ensures FormatPrice(whole + "." + cents) == whole + "." + cents
  {
    SplitOneDot(whole, cents);
    FixedPoint(whole + "." + cents);
  }

  /** "1234.56" is already canonical. */
  lemma ExampleCanonical()
    ensures FormatPrice("1234.56") == "1234.56"
  {
    assert "1234.56" == "1234" + "." + "56";
    assert "1234.56"[1] != '$';
    CanonicalDecimal("1234", "56");
  }

  /** The empty text stays empty. */
  lemma ExampleEmpty()
    ensures FormatPrice("") == ""
  {
    SplitWithoutDot("");
  }

  /** "1.234" reads as one thousand two hundred and thirty-four. */
  lemma ExampleThousands()
    ensures FormatPrice("1.234") == "1234"
  {
    ThousandsSpelling();
    LoneThousandsDot("1", "234");
  }

  lemma ThousandsSpelling()
    ensures "1" + "." + "234" == "1.234"
    ensures "1" + "234" == "1234"
    ensures !StartsWith("1.234", CurrencyMark)
  {
    assert "1.234"[0] == '1';
  }

  /** "R$ 1.234,56" becomes "1234.56". */
  lemma ExampleBrazilian()
    ensures FormatPrice("R$ 1.234,56") == "1234.56"
  {
    BrazilianSpelling();
    BrazilianThousands("1", "234", "56");
  }

  lemma BrazilianSpelling()
    ensures "R$ " + ("1" + "." + "234" + "," + "56") == "R$ 1.234,56"
    ensures "1" + "234" + "." + "56" == "1234.56"
  {
  }

  /** "R$ 19,90" becomes "19.90". */
  lemma ExampleComma()
    ensures FormatPrice("R$ 19,90") == "19.90"
  {
    CommaSpelling();
    BrazilianUnits("19", "90");
  }

  lemma CommaSpelling()
    ensures "R$ " + ("19" + "," + "90") == "R$ 19,90"
    ensures "19" + "." + "90" == "19.90"
  {
  }
}
