/**
 * The vendor classifier: a description is upper-cased and run against an
 * ordered table of rules; the first rule whose pattern matches decides
 * the vendor, either as a fixed label or as the text its pattern
 * captures, and a description no rule matches is title-cased.
 */
module Vendor {
  import opened Wrappers
  import opened PyText

  /** The regular expressions of the rule table, all built from literal text. */
  datatype Pattern =
      /** `A|B|C`: any of the alternatives occurs. */
    | AnyOf(alternatives: seq<string>)
      /** `A.*B`: `A` occurs, followed later on the same line by `B`. */
    | Then(first: string, second: string)

  /** One row of the rule table. */
  datatype Rule =
      /** A pattern whose replacement is a literal label, returned verbatim. */
    | Fixed(pattern: Pattern, name: string)
      /** `M(.*)` with replacement `\1`: the rest of the line after the marker `M`. */
    | CaptureAfter(marker: string)

  predicate PatternMatches(p: Pattern, u: string) {
    match p
    case AnyOf(alternatives) => exists k :: 0 <= k < |alternatives| && Contains(u, alternatives[k])
    case Then(a, b) => MatchesThen(u, a, b)
  }

  /** `re.search(pattern, u)` finds a match. */
  predicate RuleMatches(r: Rule, u: string) {
    match r
    case Fixed(p, _) => PatternMatches(p, u)
    case CaptureAfter(marker) => Contains(u, marker)
  }

  /**
   * The vendor a matching rule gives: its label, or the text after the
   * leftmost marker up to the end of the line, stripped and title-cased.
   */
  function Apply(r: Rule, u: string): string
    requires RuleMatches(r, u)
  {
    match r
    case Fixed(_, name) => name
    case CaptureAfter(marker) =>
      var i := FindFrom(u, marker, 0).value;
      Capture(u[i + |marker|..])
  }

  /** The captured group, `group(1).strip().title()`. */
  function Capture(rest: string): (vendor: string)
    ensures '\n' !in vendor
    ensures vendor == [] || (!IsSpace(vendor[0]) && !IsSpace(vendor[|vendor| - 1]))
  {
    var trimmed := Strip(TakeLine(rest));
    StripKeepsOut(TakeLine(rest), '\n');
    if trimmed == [] then []
    else
      TitleKeepsNonLetters(trimmed, 0);
      TitleKeepsNonLetters(trimmed, |trimmed| - 1);
      forall k | 0 <= k < |trimmed| ensures Title(trimmed)[k] != '\n' {
        TitleKeepsNonLetters(trimmed, k);
      }
      Title(trimmed)
  }

  /**
   * The scan of the rule loop: the index of the first rule, from `i` on,
   * whose pattern matches `u`, or `None` when the loop runs out.
   */
  function FirstMatch(rules: seq<Rule>, u: string, i: nat): (r: Option<nat>)
    requires i <= |rules|
    ensures r.Some? ==> i <= r.value < |rules| && RuleMatches(rules[r.value], u)
    ensures r.Some? ==> forall k :: i <= k < r.value ==> !RuleMatches(rules[k], u)
    ensures r.None? ==> forall k :: i <= k < |rules| ==> !RuleMatches(rules[k], u)
    decreases |rules| - i
  {
    if i == |rules| then None
    else if RuleMatches(rules[i], u) then Some(i)
    else FirstMatch(rules, u, i + 1)
  }

  /** The first matching rule decides the vendor; with none, the input is title-cased. */
  function Classify(rules: seq<Rule>, u: string): string {
    match FirstMatch(rules, u, 0)
    case Some(k) => Apply(rules[k], u)
    case None => Title(u)
  }

  /** The rule table, most specific first. */
  const VendorRules: seq<Rule> := [
    RuleAt(0), RuleAt(1), RuleAt(2), RuleAt(3), RuleAt(4), RuleAt(5), RuleAt(6), RuleAt(7),
    RuleAt(8), RuleAt(9), RuleAt(10), RuleAt(11), RuleAt(12), RuleAt(13), RuleAt(14), RuleAt(15)
  ]

  /** Row `i` of the rule table. */
  function RuleAt(i: int): Rule {
    if i == 0 then Fixed(AnyOf(["AMAZON", "AMZN"]), "Amazon")
    else if i == 1 then Fixed(AnyOf(["TESCO"]), "Tesco")
    else if i == 2 then Fixed(AnyOf(["EBAY"]), "eBay")
    else if i == 3 then Fixed(Then("GOOGLE", "YOUTUBE"), "Google YouTube Premium")
    else if i == 4 then Fixed(AnyOf(["UBER"]), "Uber")
    else if i == 5 then Fixed(AnyOf(["STARBUCKS"]), "Starbucks")
    else if i == 6 then Fixed(AnyOf(["PANDA EXPRESS"]), "Panda Express")
    else if i == 7 then Fixed(AnyOf(["SAFEWAY"]), "Safeway")
    else if i == 8 then Fixed(AnyOf(["CIRCUIT GO"]), "Circuit Laundry")
    else if i == 9 then CaptureAfter("SUMUP ** ")
    else if i == 10 then CaptureAfter("SQ *")
    else if i == 11 then Fixed(AnyOf(["TIM HORTONS"]), "Tim Hortons")
    else if i == 12 then Fixed(AnyOf(["UNIVERSITY COLLEGE", "STEPHENSON COLLEGE", "DURHAM STUDENTS"]), "Durham University")
    else if i == 13 then Fixed(Then("CAPITAL ONE", "PYMT"), "Capital One Payment")
    else if i == 14 then Fixed(AnyOf(["INTERNET PAYMENT", "DIRECTPAY"]), "Bank Payment")
    else Fixed(AnyOf(["CASH BACK", "CASHBACK", "REWARD"]), "Cash Back / Rewards")
  }

  /** `get_smart_vendor`: classify the upper-cased description. */
  function GetSmartVendor(description: string): string {
    Classify(VendorRules, Upper(description))
  }

  // ---------------------------------------------------------------------
  // First match wins
  // ---------------------------------------------------------------------

  /** The first rule that matches decides the vendor, whatever later rules would say. */
  lemma FirstMatchWins(rules: seq<Rule>, u: string, i: nat)
    requires i < |rules| && RuleMatches(rules[i], u)
    requires forall k :: 0 <= k < i ==> !RuleMatches(rules[k], u)
    ensures Classify(rules, u) == Apply(rules[i], u)
  {
  }

  /** When no rule matches, the vendor is the title-cased input. */
  lemma NoMatchFallsBack(rules: seq<Rule>, u: string)
    requires forall k :: 0 <= k < |rules| ==> !RuleMatches(rules[k], u)
    ensures Classify(rules, u) == Title(u)
  {
  }

  /** The classifier sees only the upper-cased description, so case never changes the vendor. */
  lemma IgnoresCase(d1: string, d2: string)
    requires Upper(d1) == Upper(d2)
    ensures GetSmartVendor(d1) == GetSmartVendor(d2)
  {
  }

  /** Classifying an upper-cased description gives the same vendor as the description. */
  lemma UpperCaseInput(d: string)
    ensures GetSmartVendor(Upper(d)) == GetSmartVendor(d)
  {
    UpperIdempotent(d);
  }

  /**
   * A fallback vendor is stable: classifying it again matches no rule
   * either, and title-cases to itself.
   */
  lemma FallbackIsStable(d: string)
    requires forall k :: 0 <= k < |VendorRules| ==> !RuleMatches(VendorRules[k], Upper(d))
    ensures GetSmartVendor(d) == Title(Upper(d))
    ensures GetSmartVendor(GetSmartVendor(d)) == GetSmartVendor(d)
  {
    NoMatchFallsBack(VendorRules, Upper(d));
    var v := Title(Upper(d));
    UpperOfTitle(Upper(d));
    UpperIdempotent(d);
    assert Upper(v) == Upper(d);
    NoMatchFallsBack(VendorRules, Upper(v));
    TitleOfUpper(Upper(d));
  }

  // ---------------------------------------------------------------------
  // Ruling rules out
  // ---------------------------------------------------------------------

  /** The literal texts a rule needs: a match needs one of them to occur. */
  function Needs(r: Rule): seq<string> {
    match r
    case Fixed(AnyOf(alternatives), _) => alternatives
    case Fixed(Then(a, _), _) => [a]
    case CaptureAfter(marker) => [marker]
  }

  lemma MatchNeedsPiece(r: Rule, u: string)
    ensures RuleMatches(r, u) ==> exists k :: 0 <= k < |Needs(r)| && Contains(u, Needs(r)[k])
  {
    match r
    case Fixed(Then(a, b), _) =>
      ThenNeedsFirst(u, a, b);
      assert Needs(r)[0] == a;
    case Fixed(AnyOf(alternatives), _) =>
      assert Needs(r) == alternatives;
    case CaptureAfter(marker) =>
      assert Needs(r)[0] == marker;
  }

  /**
   * For each text that `r` needs, `u` lacks the character at position
   * `at[k]` of that text.
   */
  predicate Lacks(u: string, r: Rule, at: seq<nat>) {
    |at| == |Needs(r)|
    && forall k :: 0 <= k < |at| ==> at[k] < |Needs(r)[k]| && Needs(r)[k][at[k]] !in u
  }

  /** No character of `chars` occurs in `u`. */
  predicate Avoids(u: string, chars: string) {
    forall k :: 0 <= k < |u| ==> u[k] !in chars
  }

  /** Row `i` of the table as declared. */
  lemma TableRow(i: nat)
    requires i < |VendorRules|
    ensures VendorRules[i] == RuleAt(i)
  {
  }

  /** A rule each of whose needed texts has a character `u` lacks cannot match `u`. */
  lemma Lacking(u: string, i: nat, at: seq<nat>)
    requires i < |VendorRules| && Lacks(u, RuleAt(i), at)
    ensures !RuleMatches(VendorRules[i], u)
  {
    TableRow(i);
    MatchNeedsPiece(RuleAt(i), u);
    forall k | 0 <= k < |at| ensures !Contains(u, Needs(RuleAt(i))[k]) {
      ContainsHasChars(u, Needs(RuleAt(i))[k], at[k]);
    }
  }

  /** Rules `from` to `to - 1` are all passed over when `u` lacks a character of each text they need. */
  lemma PassedOver(u: string, from: nat, to: nat, ats: seq<seq<nat>>)
    requires from <= to <= |VendorRules| && |ats| == to - from
    requires forall k :: from <= k < to ==> Lacks(u, RuleAt(k), ats[k - from])
    ensures forall k :: from <= k < to ==> !RuleMatches(VendorRules[k], u)
  {
    forall k | from <= k < to ensures !RuleMatches(VendorRules[k], u) {
      Lacking(u, k, ats[k - from]);
    }
  }

  /** A rule one of whose alternatives occurs at a known position matches. */
  lemma AlternativeAt(u: string, i: nat, k: nat, at: nat)
    requires i < |VendorRules| && RuleAt(i).Fixed? && RuleAt(i).pattern.AnyOf?
    requires k < |RuleAt(i).pattern.alternatives|
    requires PrefixAt(u, RuleAt(i).pattern.alternatives[k], at)
    ensures RuleMatches(VendorRules[i], u)
  {
    TableRow(i);
    PrefixAtIff(u, RuleAt(i).pattern.alternatives[k], at);
  }

  /** A capture rule whose marker opens `u` matches, and captures everything after the marker. */
  lemma MarkerOpens(u: string, i: nat)
    requires i < |VendorRules| && RuleAt(i).CaptureAfter?
    requires PrefixAt(u, RuleAt(i).marker, 0)
    ensures RuleMatches(VendorRules[i], u)
    ensures Apply(VendorRules[i], u) == Capture(u[|RuleAt(i).marker|..])
  {
    TableRow(i);
    PrefixAtIff(u, RuleAt(i).marker, 0);
    CaptureAtStart(RuleAt(i).marker, u);
  }

  // ---------------------------------------------------------------------
  // General consequences of the table order
  // ---------------------------------------------------------------------

  /** Whatever else a description says, `AMAZON` or `AMZN` in it makes it Amazon. */
  lemma AmazonAlwaysWins(d: string)
    requires Contains(Upper(d), "AMAZON") || Contains(Upper(d), "AMZN")
    ensures GetSmartVendor(d) == "Amazon"
  {
    TableRow(0);
    var alternatives := RuleAt(0).pattern.alternatives;
    assert alternatives[0] == "AMAZON" && alternatives[1] == "AMZN";
    var k := if Contains(Upper(d), "AMAZON") then 0 else 1;
    assert Contains(Upper(d), alternatives[k]);
    FirstMatchWins(VendorRules, Upper(d), 0);
  }

  /** Every text a rule needs has at least four characters. */
  lemma NeedsFour(i: nat, k: nat)
    requires i < |VendorRules| && k < |Needs(RuleAt(i))|
    ensures |Needs(RuleAt(i))[k]| >= 4
  {
  }

  /** A description of fewer than four characters matches no rule and is title-cased. */
  lemma ShortFallsBack(d: string)
    requires |d| < 4
    ensures GetSmartVendor(d) == Title(Upper(d))
  {
    var u := Upper(d);
    forall i | 0 <= i < |VendorRules| ensures !RuleMatches(VendorRules[i], u) {
      TableRow(i);
      MatchNeedsPiece(RuleAt(i), u);
      forall k | 0 <= k < |Needs(RuleAt(i))| ensures !Contains(u, Needs(RuleAt(i))[k]) {
        NeedsFour(i, k);
      }
    }
    NoMatchFallsBack(VendorRules, u);
  }

  /** The classifier is total but not always non-empty: an empty description has an empty vendor. */
  lemma EmptyDescription()
    ensures GetSmartVendor("") == ""
  {
    ShortFallsBack("");
  }

  // ---------------------------------------------------------------------
  // Worked examples
  // ---------------------------------------------------------------------

  /** `AMAZON PRIME VIDEO` is Amazon: the first rule wins. */
  lemma AmazonPrimeVideo(d: string)
    requires d == "AMAZON PRIME VIDEO"
    ensures GetSmartVendor(d) == "Amazon"
  {
    UpperCaseText(d);
    UpperUnchanged(d);
    assert PrefixAt(d, "AMAZON", 0);
    PrefixAtIff(d, "AMAZON", 0);
    AmazonAlwaysWins(d);
  }

  /** `SQ *UBER EATS` is Uber: the `UBER` rule comes before the `SQ *` capture. */
  lemma SquareUberEats(d: string)
    requires d == "SQ *UBER EATS"
    ensures GetSmartVendor(d) == "Uber"
  {
    UpperCaseText(d);
    UpperUnchanged(d);
    SquareUberEatsText(d);
    UberAfterFourMisses(d, 4);
  }

  lemma SquareUberEatsText(d: string)
    requires d == "SQ *UBER EATS"
    ensures Avoids(d, "ZOYG") && PrefixAt(d, "UBER", 4)
  {
  }

  /** Text with `UBER` somewhere and none of `Z`, `O`, `Y`, `G` passes the first four rows and is Uber. */
  lemma UberAfterFourMisses(u: string, at: nat)
    requires Avoids(u, "ZOYG") && PrefixAt(u, "UBER", at)
    ensures Classify(VendorRules, u) == "Uber"
  {
    PassedOver(u, 0, 4, [[3, 2], [4], [3], [0]]);
    AlternativeAt(u, 4, 0, at);
    TableRow(4);
    FirstMatchWins(VendorRules, u, 4);
  }

  /** `Tesco` is Tesco: the description is upper-cased before matching. */
  lemma Tesco(d: string)
    requires d == "Tesco"
    ensures GetSmartVendor(d) == "Tesco"
  {
    TescoText(d);
    TescoAfterOneMiss(Upper(d));
  }

  lemma TescoText(d: string)
    requires d == "Tesco"
    ensures Avoids(Upper(d), "Z") && PrefixAt(Upper(d), "TESCO", 0)
  {
  }

  lemma TescoAfterOneMiss(u: string)
    requires Avoids(u, "Z") && PrefixAt(u, "TESCO", 0)
    ensures Classify(VendorRules, u) == "Tesco"
  {
    PassedOver(u, 0, 1, [[3, 2]]);
    AlternativeAt(u, 1, 0, 0);
    TableRow(1);
    FirstMatchWins(VendorRules, u, 1);
  }

  /** `SUMUP ** JOES COFFEE` is `Joes Coffee`: the text after the marker, title-cased. */
  lemma SumUpJoesCoffee(d: string)
    requires d == "SUMUP ** JOES COFFEE"
    ensures GetSmartVendor(d) == "Joes Coffee"
  {
    UpperCaseText(d);
    UpperUnchanged(d);
    SumUpJoesCoffeeText(d);
    SumUpJoesCoffeeChars(d);
    PrefixAtIff(d, "SUMUP ** ", 0);
    NineMiss(d);
    CapturedAfterNineMisses(d);
    JoesCoffeeCapture(d[9..]);
  }

  lemma SumUpJoesCoffeeText(d: string)
    requires d == "SUMUP ** JOES COFFEE"
    ensures OccursAt(d, "SUMUP ** ", 0) && d[9..] == "JOES COFFEE"
  {
    assert d == "SUMUP ** " + "JOES COFFEE";
  }

  lemma SumUpJoesCoffeeChars(d: string)
    requires d == "SUMUP ** JOES COFFEE"
    ensures Avoids(d, "ZTYGBAI")
  {
  }

  /** The capture keeps the one line and its letters, and title-cases each word. */
  lemma JoesCoffeeCapture(rest: string)
    requires rest == "JOES COFFEE"
    ensures Capture(rest) == "Joes Coffee"
  {
    assert '\n' !in rest;
    TakeLineWhole(rest);
    StripUnchanged(rest);
    JoesCoffeeTitle(rest);
  }

  lemma JoesCoffeeTitle(s: string)
    requires s == "JOES COFFEE"
    ensures Title(s) == "Joes Coffee"
  {
    assert s == "JOES" + " COFFEE";
    TitleFromAppend(false, "JOES", " COFFEE");
    JoesTitle();
    CoffeeTitle();
    assert "Joes" + " Coffee" == "Joes Coffee";
  }

  lemma JoesTitle()
    ensures TitleFrom(false, "JOES") == "Joes"
  {
  }

  lemma CoffeeTitle()
    ensures TitleFrom(true, " COFFEE") == " Coffee"
  {
  }

  /** Rules 0 to 4 need `Z`, `T`, `Y`, `G` or `B`. */
  lemma FirstFiveMiss(u: string)
    requires Avoids(u, "ZTYGBAI")
    ensures forall k :: 0 <= k < 5 ==> !RuleMatches(VendorRules[k], u)
  {
    PassedOver(u, 0, 5, [[3, 2], [0], [3], [0], [1]]);
  }

  /** Rules 5 to 8 need `T`, `A` or `I`. */
  lemma NextFourMiss(u: string)
    requires Avoids(u, "ZTYGBAI")
    ensures forall k :: 5 <= k < 9 ==> !RuleMatches(VendorRules[k], u)
  {
    PassedOver(u, 5, 9, [[1], [1], [1], [1]]);
  }

  lemma NineMiss(u: string)
    requires Avoids(u, "ZTYGBAI")
    ensures forall k :: 0 <= k < 9 ==> !RuleMatches(VendorRules[k], u)
  {
    FirstFiveMiss(u);
    NextFourMiss(u);
  }

  /** Row 9 of the table is the `SUMUP ** ` capture. */
  lemma SumUpRow()
    ensures RuleAt(9) == CaptureAfter("SUMUP ** ") && |RuleAt(9).marker| == 9
  {
  }

  /** A capture rule whose marker opens the text takes everything after the marker. */
  lemma CaptureAtStart(marker: string, u: string)
    requires OccursAt(u, marker, 0)
    ensures RuleMatches(CaptureAfter(marker), u)
    ensures Apply(CaptureAfter(marker), u) == Capture(u[|marker|..])
  {
    assert FindFrom(u, marker, 0).Some?;
  }

  /** Text that opens with `SUMUP ** ` and that the first nine rows miss gets the capture of what follows the marker. */
  lemma CapturedAfterNineMisses(u: string)
    requires forall k :: 0 <= k < 9 ==> !RuleMatches(VendorRules[k], u)
    requires PrefixAt(u, "SUMUP ** ", 0)
    ensures Classify(VendorRules, u) == Capture(u[9..])
  {
    SumUpRow();
    MarkerOpens(u, 9);
    FirstMatchWins(VendorRules, u, 9);
  }

  /** The examples' descriptions are already upper case. */
  lemma UpperCaseText(d: string)
    requires d == "AMAZON PRIME VIDEO" || d == "SQ *UBER EATS" || d == "SUMUP ** JOES COFFEE"
    ensures forall k :: 0 <= k < |d| ==> !IsLowerLetter(d[k])
  {
  }

  // ---------------------------------------------------------------------
  // Every fixed label classifies as itself
  // ---------------------------------------------------------------------

  /**
   * Each fixed label of the table, given back as a description, is
   * classified as that same label: the nine labels that name their own
   * row come back through that row, and the four others (`Circuit
   * Laundry`, `Durham University`, `Capital One Payment`, `Bank Payment`)
   * match no row and come back title-cased.
   */
  lemma LabelsAreStable(i: nat)
    requires i < |VendorRules| && RuleAt(i).Fixed?
    ensures GetSmartVendor(RuleAt(i).name) == RuleAt(i).name
  {
    var d := RuleAt(i).name;
    if i == 0 { AmazonLabel(d); }
    else if i == 1 { Tesco(d); }
    else if i == 2 { EbayLabel(d); }
    else if i == 3 { GoogleLabel(d); }
    else if i == 4 { UberLabel(d); }
    else if i == 5 { StarbucksLabel(d); }
    else if i == 6 { PandaExpressLabel(d); }
    else if i == 7 { SafewayLabel(d); }
    else if i == 8 { CircuitLaundryLabel(d); }
    else if i == 11 { TimHortonsLabel(d); }
    else if i == 12 { DurhamLabel(d); }
    else if i == 13 { CapitalOneLabel(d); }
    else if i == 14 { BankPaymentLabel(d); }
    else if i == 15 { CashBackLabel(d); }
  }

  /** An `AnyOf` row whose first alternative occurs in `u`, after rows `0` to `i - 1` all miss, gives its label. */
  lemma LabelAfterMisses(u: string, i: nat, pos: nat)
    requires i < |VendorRules| && RuleAt(i).Fixed? && RuleAt(i).pattern.AnyOf?
    requires |RuleAt(i).pattern.alternatives| > 0 && OccursAt(u, RuleAt(i).pattern.alternatives[0], pos)
    requires forall k :: 0 <= k < i ==> !RuleMatches(VendorRules[k], u)
    ensures Classify(VendorRules, u) == RuleAt(i).name
  {
    TableRow(i);
    assert Contains(u, RuleAt(i).pattern.alternatives[0]);
    FirstMatchWins(VendorRules, u, i);
  }

  /** A `Then` row whose two texts occur in order on one line matches. */
  lemma ThenAt(u: string, i: nat, p: nat, q: nat)
    requires i < |VendorRules| && RuleAt(i).Fixed? && RuleAt(i).pattern.Then?
    requires OccursAt(u, RuleAt(i).pattern.first, p) && OccursAt(u, RuleAt(i).pattern.second, q)
    requires p + |RuleAt(i).pattern.first| <= q && '\n' !in u[p + |RuleAt(i).pattern.first|..q]
    ensures RuleMatches(VendorRules[i], u)
  {
    TableRow(i);
  }

  /** A label that no row matches and that `title()` leaves alone comes back through the fallback. */
  lemma FallbackLabel(d: string)
    requires forall k :: 0 <= k < |VendorRules| ==> !RuleMatches(VendorRules[k], Upper(d))
    requires Title(d) == d
    ensures GetSmartVendor(d) == d
  {
    FallbackIsStable(d);
    TitleOfUpper(d);
  }

  /** `upper()` of a text, given character by character. */
  lemma UpperText(d: string, u: string)
    requires |d| == |u| && forall k :: 0 <= k < |d| ==> UpperChar(d[k]) == u[k]
    ensures Upper(d) == u
  {
  }

  /** No `x` of `u` is directly followed by `y`. */
  predicate NeverFollows(u: string, x: char, y: char) {
    forall i :: 0 <= i < |u| - 1 && u[i] == x ==> u[i + 1] != y
  }

  /** A text two of whose adjacent characters never stand next to each other in `u` does not occur in `u`. */
  lemma AbsentPair(u: string, pat: string, j: nat)
    requires j + 1 < |pat| && NeverFollows(u, pat[j], pat[j + 1])
    ensures !Contains(u, pat)
  {
    forall i | 0 <= i <= |u| - |pat| ensures !OccursAt(u, pat, i) {
      assert u[i..i + |pat|][j] == u[i + j] && u[i..i + |pat|][j + 1] == u[i + j + 1];
    }
  }

  /** A row none of whose needed texts occurs in `u` cannot match `u`. */
  lemma Missing(u: string, i: nat)
    requires i < |VendorRules|
    requires forall k :: 0 <= k < |Needs(RuleAt(i))| ==> !Contains(u, Needs(RuleAt(i))[k])
    ensures !RuleMatches(VendorRules[i], u)
  {
    TableRow(i);
    MatchNeedsPiece(RuleAt(i), u);
  }

  // The nine labels that name their own row.

  lemma AmazonLabel(d: string)
    requires d == "Amazon"
    ensures GetSmartVendor(d) == d
  {
    UpperText(d, "AMAZON");
    PrefixAtIff(Upper(d), "AMAZON", 0);
    AmazonAlwaysWins(d);
  }

  lemma EbayLabel(d: string)
    requires d == "eBay"
    ensures GetSmartVendor(d) == d
  {
    UpperText(d, "EBAY");
    EbayAfterTwoMisses(Upper(d));
  }

  lemma EbayAfterTwoMisses(u: string)
    requires Avoids(u, "ZT") && OccursAt(u, "EBAY", 0)
    ensures Classify(VendorRules, u) == "eBay"
  {
    PassedOver(u, 0, 2, [[3, 2], [0]]);
    LabelAfterMisses(u, 2, 0);
  }

  lemma GoogleLabel(d: string)
    requires d == "Google YouTube Premium"
    ensures GetSmartVendor(d) == d
  {
    UpperText(d, "GOOGLE YOUTUBE PREMIUM");
    GoogleChars(Upper(d));
    GoogleAfterThreeMisses(Upper(d));
  }

  lemma GoogleChars(u: string)
    requires u == "GOOGLE YOUTUBE PREMIUM"
    ensures Avoids(u, "ZSA\n") && OccursAt(u, "GOOGLE", 0) && OccursAt(u, "YOUTUBE", 7)
  {
    assert u == "GOOGLE" + " " + "YOUTUBE" + " PREMIUM";
  }

  lemma GoogleAfterThreeMisses(u: string)
    requires Avoids(u, "ZSA\n") && OccursAt(u, "GOOGLE", 0) && OccursAt(u, "YOUTUBE", 7)
    ensures Classify(VendorRules, u) == "Google YouTube Premium"
  {
    PassedOver(u, 0, 3, [[3, 2], [2], [2]]);
    ThenAt(u, 3, 0, 7);
    TableRow(3);
    FirstMatchWins(VendorRules, u, 3);
  }

  lemma UberLabel(d: string)
    requires d == "Uber"
    ensures GetSmartVendor(d) == d
  {
    UpperText(d, "UBER");
    PrefixAtIff(Upper(d), "UBER", 0);
    UberAfterFourMisses(Upper(d), 0);
  }

  lemma StarbucksLabel(d: string)
    requires d == "Starbucks"
    ensures GetSmartVendor(d) == d
  {
    UpperText(d, "STARBUCKS");
    StarbucksAfterFiveMisses(Upper(d));
  }

  lemma StarbucksAfterFiveMisses(u: string)
    requires Avoids(u, "ZEG") && OccursAt(u, "STARBUCKS", 0)
    ensures Classify(VendorRules, u) == "Starbucks"
  {
    PassedOver(u, 0, 5, [[3, 2], [1], [0], [0], [2]]);
    LabelAfterMisses(u, 5, 0);
  }

  lemma PandaExpressLabel(d: string)
    requires d == "Panda Express"
    ensures GetSmartVendor(d) == d
  {
    UpperText(d, "PANDA EXPRESS");
    PandaExpressChars(Upper(d));
    PandaExpressAfterSixMisses(Upper(d));
  }

  lemma PandaExpressChars(u: string)
    requires u == "PANDA EXPRESS"
    ensures Avoids(u, "ZTBGU") && OccursAt(u, "PANDA EXPRESS", 0)
  {
  }

  lemma PandaExpressAfterSixMisses(u: string)
    requires Avoids(u, "ZTBGU") && OccursAt(u, "PANDA EXPRESS", 0)
    ensures Classify(VendorRules, u) == "Panda Express"
  {
    PassedOver(u, 0, 6, [[3, 2], [0], [1], [0], [0], [1]]);
    LabelAfterMisses(u, 6, 0);
  }

  lemma SafewayLabel(d: string)
    requires d == "Safeway"
    ensures GetSmartVendor(d) == d
  {
    UpperText(d, "SAFEWAY");
    SafewayAfterSevenMisses(Upper(d));
  }

  lemma SafewayAfterSevenMisses(u: string)
    requires Avoids(u, "ZTBGUP") && OccursAt(u, "SAFEWAY", 0)
    ensures Classify(VendorRules, u) == "Safeway"
  {
    PassedOver(u, 0, 7, [[3, 2], [0], [1], [0], [0], [1], [0]]);
    LabelAfterMisses(u, 7, 0);
  }

  lemma TimHortonsLabel(d: string)
    requires d == "Tim Hortons"
    ensures GetSmartVendor(d) == d
  {
    UpperText(d, "TIM HORTONS");
    TimHortonsChars(Upper(d));
    TimHortonsAfterElevenMisses(Upper(d));
  }

  lemma TimHortonsChars(u: string)
    requires u == "TIM HORTONS"
    ensures Avoids(u, "ZEGUAPCQ") && OccursAt(u, "TIM HORTONS", 0)
  {
  }

  lemma TimHortonsMissesHead(u: string)
    requires Avoids(u, "ZEGUAPCQ")
    ensures forall k :: 0 <= k < 6 ==> !RuleMatches(VendorRules[k], u)
  {
    PassedOver(u, 0, 6, [[3, 2], [1], [0], [0], [0], [2]]);
  }

  lemma TimHortonsMissesTail(u: string)
    requires Avoids(u, "ZEGUAPCQ")
    ensures forall k :: 6 <= k < 11 ==> !RuleMatches(VendorRules[k], u)
  {
    PassedOver(u, 6, 11, [[0], [1], [0], [1], [1]]);
  }

  lemma TimHortonsAfterElevenMisses(u: string)
    requires Avoids(u, "ZEGUAPCQ") && OccursAt(u, "TIM HORTONS", 0)
    ensures Classify(VendorRules, u) == "Tim Hortons"
  {
    TimHortonsMissesHead(u);
    TimHortonsMissesTail(u);
    LabelAfterMisses(u, 11, 0);
  }

  lemma CashBackLabel(d: string)
    requires d == "Cash Back / Rewards"
    ensures GetSmartVendor(d) == d
  {
    UpperText(d, "CASH BACK / REWARDS");
    CashBackChars(Upper(d));
    CashBackAfterFifteenMisses(Upper(d));
  }

  lemma CashBackChars(u: string)
    requires u == "CASH BACK / REWARDS"
    ensures Avoids(u, "ZTYGUPFIQ") && OccursAt(u, "CASH BACK", 0)
  {
    assert u == "CASH BACK" + " / REWARDS";
  }

  lemma CashBackMissesHead(u: string)
    requires Avoids(u, "ZTYGUPFIQ")
    ensures forall k :: 0 <= k < 5 ==> !RuleMatches(VendorRules[k], u)
  {
    PassedOver(u, 0, 5, [[3, 2], [0], [3], [0], [0]]);
  }

  lemma CashBackMissesMiddle(u: string)
    requires Avoids(u, "ZTYGUPFIQ")
    ensures forall k :: 5 <= k < 10 ==> !RuleMatches(VendorRules[k], u)
  {
    PassedOver(u, 5, 10, [[1], [0], [2], [1], [1]]);
  }

  lemma CashBackMissesLate(u: string)
    requires Avoids(u, "ZTYGUPFIQ")
    ensures forall k :: 10 <= k < 13 ==> !RuleMatches(VendorRules[k], u)
  {
    PassedOver(u, 10, 13, [[1], [0], [0, 1, 1]]);
  }

  lemma CashBackMissesLast(u: string)
    requires Avoids(u, "ZTYGUPFIQ")
    ensures forall k :: 13 <= k < 15 ==> !RuleMatches(VendorRules[k], u)
  {
    PassedOver(u, 13, 15, [[2], [0, 1]]);
  }

  lemma CashBackAfterFifteenMisses(u: string)
    requires Avoids(u, "ZTYGUPFIQ") && OccursAt(u, "CASH BACK", 0)
    ensures Classify(VendorRules, u) == "Cash Back / Rewards"
  {
    CashBackMissesHead(u);
    CashBackMissesMiddle(u);
    CashBackMissesLate(u);
    CashBackMissesLast(u);
    LabelAfterMisses(u, 15, 0);
  }

  // The four labels that no row matches.

  lemma CircuitLaundryLabel(d: string)
    requires d == "Circuit Laundry"
    ensures GetSmartVendor(d) == d
  {
    UpperText(d, "CIRCUIT LAUNDRY");
    CircuitLaundryChars(Upper(d));
    CircuitLaundryMisses(Upper(d));
    CircuitLaundryTitle(d);
    FallbackLabel(d);
  }

  lemma CircuitLaundryChars(u: string)
    requires u == "CIRCUIT LAUNDRY"
    ensures Avoids(u, "ZEGBSPMH")
  {
  }

  lemma CircuitLaundryMissesHead(u: string)
    requires Avoids(u, "ZEGBSPMH")
    ensures forall k :: 0 <= k < 6 ==> !RuleMatches(VendorRules[k], u)
  {
    PassedOver(u, 0, 6, [[3, 2], [1], [0], [0], [1], [0]]);
  }

  lemma CircuitLaundryMissesMiddle(u: string)
    requires Avoids(u, "ZEGBSPMH")
    ensures forall k :: 6 <= k < 12 ==> !RuleMatches(VendorRules[k], u)
  {
    PassedOver(u, 6, 12, [[0], [0], [8], [0], [0], [2]]);
  }

  lemma CircuitLaundryMissesLate(u: string)
    requires Avoids(u, "ZEGBSPMH")
    ensures forall k :: 12 <= k < 14 ==> !RuleMatches(VendorRules[k], u)
  {
    PassedOver(u, 12, 14, [[4, 0, 3], [2]]);
  }

  lemma CircuitLaundryMissesLast(u: string)
    requires Avoids(u, "ZEGBSPMH")
    ensures forall k :: 14 <= k < 16 ==> !RuleMatches(VendorRules[k], u)
  {
    PassedOver(u, 14, 16, [[3, 3], [2, 2, 1]]);
  }

  lemma CircuitLaundryMisses(u: string)
    requires Avoids(u, "ZEGBSPMH")
    ensures forall k :: 0 <= k < |VendorRules| ==> !RuleMatches(VendorRules[k], u)
  {
    CircuitLaundryMissesHead(u);
    CircuitLaundryMissesMiddle(u);
    CircuitLaundryMissesLate(u);
    CircuitLaundryMissesLast(u);
  }

  lemma CircuitLaundryTitle(d: string)
    requires d == "Circuit Laundry"
    ensures Title(d) == d
  {
    var a, b := d[..7], d[7..];
    CapitalisedTitle(a);
    TitledPhrase(a, b);
    assert a + b == d;
  }

  lemma DurhamLabel(d: string)
    requires d == "Durham University"
    ensures GetSmartVendor(d) == d
  {
    UpperText(d, "DURHAM UNIVERSITY");
    DurhamChars(Upper(d));
    DurhamMisses(Upper(d));
    DurhamTitle(d);
    FallbackLabel(d);
  }

  lemma DurhamChars(u: string)
    requires u == "DURHAM UNIVERSITY"
    ensures Avoids(u, "ZCBGPFQOW") && NeverFollows(u, ' ', 'S')
  {
  }

  lemma DurhamMissesHead(u: string)
    requires Avoids(u, "ZCBGPFQOW")
    ensures forall k :: 0 <= k < 6 ==> !RuleMatches(VendorRules[k], u)
  {
    PassedOver(u, 0, 6, [[3, 2], [3], [1], [0], [1], [4]]);
  }

  lemma DurhamMissesMiddle(u: string)
    requires Avoids(u, "ZCBGPFQOW")
    ensures forall k :: 6 <= k < 9 ==> !RuleMatches(VendorRules[k], u)
  {
    PassedOver(u, 6, 9, [[0], [2], [0]]);
  }

  lemma DurhamMissesLate(u: string)
    requires Avoids(u, "ZCBGPFQOW")
    ensures forall k :: 9 <= k < 12 ==> !RuleMatches(VendorRules[k], u)
  {
    PassedOver(u, 9, 12, [[4], [1], [5]]);
  }

  lemma DurhamMissesLast(u: string)
    requires Avoids(u, "ZCBGPFQOW")
    ensures forall k :: 13 <= k < 15 ==> !RuleMatches(VendorRules[k], u)
  {
    PassedOver(u, 13, 15, [[0], [9, 4]]);
  }

  lemma DurhamMissesFinal(u: string)
    requires Avoids(u, "ZCBGPFQOW")
    ensures !RuleMatches(VendorRules[15], u)
  {
    Lacking(u, 15, [0, 0, 2]);
  }

  /** `DURHAM STUDENTS` needs a space followed by `S`. */
  lemma DurhamMisses(u: string)
    requires Avoids(u, "ZCBGPFQOW") && NeverFollows(u, ' ', 'S')
    ensures forall k :: 0 <= k < |VendorRules| ==> !RuleMatches(VendorRules[k], u)
  {
    DurhamMissesHead(u);
    DurhamMissesMiddle(u);
    DurhamMissesLate(u);
    ContainsHasChars(u, "UNIVERSITY COLLEGE", 11);
    ContainsHasChars(u, "STEPHENSON COLLEGE", 3);
    AbsentPair(u, "DURHAM STUDENTS", 6);
    Missing(u, 12);
    DurhamMissesLast(u);
    DurhamMissesFinal(u);
  }

  lemma DurhamTitle(d: string)
    requires d == "Durham University"
    ensures Title(d) == d
  {
    var a, b := d[..6], d[6..];
    CapitalisedTitle(a);
    TitledPhrase(a, b);
    assert a + b == d;
  }

  lemma CapitalOneLabel(d: string)
    requires d == "Capital One Payment"
    ensures GetSmartVendor(d) == d
  {
    UpperText(d, "CAPITAL ONE PAYMENT");
    CapitalOneChars(Upper(d));
    CapitalOneMisses(Upper(d));
    CapitalOneTitle(d);
    FallbackLabel(d);
  }

  lemma CapitalOneChars(u: string)
    requires u == "CAPITAL ONE PAYMENT"
    ensures Avoids(u, "ZSBGUDRH") && NeverFollows(u, 'P', 'Y')
  {
  }

  lemma CapitalOneMissesHead(u: string)
    requires Avoids(u, "ZSBGUDRH")
    ensures forall k :: 0 <= k < 6 ==> !RuleMatches(VendorRules[k], u)
  {
    PassedOver(u, 0, 6, [[3, 2], [2], [1], [0], [0], [0]]);
  }

  lemma CapitalOneMissesMiddle(u: string)
    requires Avoids(u, "ZSBGUDRH")
    ensures forall k :: 6 <= k < 10 ==> !RuleMatches(VendorRules[k], u)
  {
    PassedOver(u, 6, 10, [[3], [0], [2], [0]]);
  }

  lemma CapitalOneMissesLate(u: string)
    requires Avoids(u, "ZSBGUDRH")
    ensures forall k :: 10 <= k < 13 ==> !RuleMatches(VendorRules[k], u)
  {
    PassedOver(u, 10, 13, [[0], [4], [0, 0, 0]]);
  }

  lemma CapitalOneMissesLast(u: string)
    requires Avoids(u, "ZSBGUDRH")
    ensures forall k :: 14 <= k < 16 ==> !RuleMatches(VendorRules[k], u)
  {
    PassedOver(u, 14, 16, [[4, 0], [2, 2, 0]]);
  }

  /** `CAPITAL ONE.*PYMT` needs a `P` followed by `Y`. */
  lemma CapitalOneMisses(u: string)
    requires Avoids(u, "ZSBGUDRH") && NeverFollows(u, 'P', 'Y')
    ensures forall k :: 0 <= k < |VendorRules| ==> !RuleMatches(VendorRules[k], u)
  {
    CapitalOneMissesHead(u);
    CapitalOneMissesMiddle(u);
    CapitalOneMissesLate(u);
    AbsentPair(u, "PYMT", 0);
    TableRow(13);
    ThenNeedsSecond(u, "CAPITAL ONE", "PYMT");
    CapitalOneMissesLast(u);
  }

  lemma CapitalOneTitle(d: string)
    requires d == "Capital One Payment"
    ensures Title(d) == d
  {
    var a, b, c := d[..7], d[7..11], d[11..];
    CapitalisedTitle(a);
    TitledPhrase(a, b);
    TitledPhrase(a + b, c);
    assert a + b + c == d;
  }

  lemma BankPaymentLabel(d: string)
    requires d == "Bank Payment"
    ensures GetSmartVendor(d) == d
  {
    UpperText(d, "BANK PAYMENT");
    BankPaymentChars(Upper(d));
    BankPaymentMisses(Upper(d));
    BankPaymentTitle(d);
    FallbackLabel(d);
  }

  lemma BankPaymentChars(u: string)
    requires u == "BANK PAYMENT"
    ensures Avoids(u, "ZSGUDCIR") && NeverFollows(u, 'E', 'B')
  {
  }

  lemma BankPaymentMissesHead(u: string)
    requires Avoids(u, "ZSGUDCIR")
    ensures forall k :: 3 <= k < 9 ==> !RuleMatches(VendorRules[k], u)
  {
    PassedOver(u, 3, 9, [[0], [0], [0], [3], [0], [0]]);
  }

  lemma BankPaymentMissesLate(u: string)
    requires Avoids(u, "ZSGUDCIR")
    ensures forall k :: 9 <= k < 12 ==> !RuleMatches(VendorRules[k], u)
  {
    PassedOver(u, 9, 12, [[0], [0], [1]]);
  }

  lemma BankPaymentMissesLast(u: string)
    requires Avoids(u, "ZSGUDCIR")
    ensures forall k :: 12 <= k < 16 ==> !RuleMatches(VendorRules[k], u)
  {
    PassedOver(u, 12, 16, [[0, 0, 0], [0], [0, 0], [0, 0, 0]]);
  }

  /** `EBAY` needs an `E` followed by `B`. */
  lemma BankPaymentMisses(u: string)
    requires Avoids(u, "ZSGUDCIR") && NeverFollows(u, 'E', 'B')
    ensures forall k :: 0 <= k < |VendorRules| ==> !RuleMatches(VendorRules[k], u)
  {
    PassedOver(u, 0, 2, [[3, 2], [2]]);
    AbsentPair(u, "EBAY", 0);
    Missing(u, 2);
    BankPaymentMissesHead(u);
    BankPaymentMissesLate(u);
    BankPaymentMissesLast(u);
  }

  lemma BankPaymentTitle(d: string)
    requires d == "Bank Payment"
    ensures Title(d) == d
  {
    var a, b := d[..4], d[4..];
    CapitalisedTitle(a);
    TitledPhrase(a, b);
    assert a + b == d;
  }
}
