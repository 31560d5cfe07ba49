/**
 * The home page: the English ordinal shown for the visitor count, and the two
 * pieces of per-browser state the page keeps (the visitor count and the colour
 * theme), mirrored in a key/value store that survives reloads.
 */
module Home {
  import Decimal

  const VisitorKey: string := "visitorCount"
  const ThemeKey: string := "theme"
  const Dark: string := "dark"
  const Light: string := "light"

  // ---------------------------------------------------------------- ordinals

  /** The English ordinal suffix of `n`: 11, 12 and 13 (and 111, 212, ...) take "th". */
  function Suffix(n: nat): (r: string)
    ensures r in ["st", "nd", "rd", "th"]
    ensures r == "st" <==> n % 10 == 1 && n % 100 != 11
    ensures r == "nd" <==> n % 10 == 2 && n % 100 != 12
    ensures r == "rd" <==> n % 10 == 3 && n % 100 != 13
    ensures r == "th" <==> n % 100 in {11, 12, 13} || n % 10 in {0, 4, 5, 6, 7, 8, 9}
  {
    var j := n % 10;
    var k := n % 100;
    if j == 1 && k != 11 then "st"
    else if j == 2 && k != 12 then "nd"
    else if j == 3 && k != 13 then "rd"
    else "th"
  }

  /** The text the page shows for the `n`th visitor: the decimal digits of `n`, then its suffix. */
  function OrdinalText(n: nat): (r: string)
    ensures |r| >= 3
  {
    Decimal.Text(n) + Suffix(n)
  }

  /** The ordinal text splits into digits that read back as `n` and a two-letter suffix. */
  lemma OrdinalReadsBack(n: nat)
    ensures var r := OrdinalText(n);
      Decimal.IsCanonical(r[..|r| - 2]) && Decimal.Value(r[..|r| - 2]) == n &&
      r[|r| - 2..] in ["st", "nd", "rd", "th"]
  {
    var digits := Decimal.Text(n);
    Decimal.ValueOfText(n);
    assert OrdinalText(n)[..|digits|] == digits;
  }

  /**
   * A second reading of the suffix rule, on the digits as written: a tens
   * digit of '1' gives "th"; otherwise the units digit '1', '2', '3' gives
   * "st", "nd", "rd", and any other digit "th".
   */
  function SuffixOfDigits(s: string): string
    requires |s| > 0
  {
    if |s| >= 2 && s[|s| - 2] == '1' then "th"
    else if s[|s| - 1] == '1' then "st"
    else if s[|s| - 1] == '2' then "nd"
    else if s[|s| - 1] == '3' then "rd"
    else "th"
  }

  /** The arithmetic rule and the rule on written digits agree for every natural. */
  lemma SuffixFollowsDigits(n: nat)
    ensures Suffix(n) == SuffixOfDigits(Decimal.Text(n))
  {
    var s := Decimal.Text(n);
    var units := n % 10;
    assert s[|s| - 1] == Decimal.DigitChar(units);
    if n >= 10 {
      var tens := (n / 10) % 10;
      assert s[..|s| - 1] == Decimal.Text(n / 10);
      assert s[|s| - 2] == Decimal.DigitChar(tens);
      LastTwoDigits(n);
      assert s[|s| - 2] == '1' <==> tens == 1;
    } else {
      assert n % 100 == n;
    }
    assert s[|s| - 1] == '1' <==> units == 1;
    assert s[|s| - 1] == '2' <==> units == 2;
    assert s[|s| - 1] == '3' <==> units == 3;
  }

  /** The last two decimal digits of `n` are its tens digit and its units digit. */
  lemma LastTwoDigits(n: nat)
    ensures n % 100 == ((n / 10) % 10) * 10 + n % 10
  {
    var m := n / 10;
    assert n == m * 10 + n % 10;
    assert m == (m / 10) * 10 + m % 10;
    assert m / 10 == n / 100;
    assert n == (n / 100) * 100 + ((m % 10) * 10 + n % 10);
  }

  /** Single digits: 0th, 1st, 2nd, 3rd, 4th. */
  lemma OrdinalUnitsExamples()
    ensures OrdinalText(0) == "0th" && OrdinalText(1) == "1st" && OrdinalText(2) == "2nd"
    ensures OrdinalText(3) == "3rd" && OrdinalText(4) == "4th"
  {
  }

  /** The teens take "th". */
  lemma OrdinalTeensExamples()
    ensures OrdinalText(11) == "11th" && OrdinalText(12) == "12th" && OrdinalText(13) == "13th"
  {
    assert Decimal.Text(11) == "11";
    assert Decimal.Text(12) == "12";
    assert Decimal.Text(13) == "13";
  }

  /** Past the teens, the units digit decides again: 21st, 22nd, 23rd. */
  lemma OrdinalTwentiesExamples()
    ensures OrdinalText(21) == "21st" && OrdinalText(22) == "22nd" && OrdinalText(23) == "23rd"
  {
    assert Decimal.Text(21) == "21";
    assert Decimal.Text(22) == "22";
    assert Decimal.Text(23) == "23";
  }

  /** Only the last two digits matter: 101st but 111th and 112th. */
  lemma OrdinalHundredsExamples()
    ensures OrdinalText(101) == "101st" && OrdinalText(111) == "111th" && OrdinalText(112) == "112th"
  {
    assert OrdinalText(101) == "101st" by {
      assert Decimal.Text(101) == "101" by { assert Decimal.Text(10) == "10"; }
      assert Suffix(101) == "st";
    }
    assert OrdinalText(111) == "111th" by {
      assert Decimal.Text(111) == "111" by { assert Decimal.Text(11) == "11"; }
      assert Suffix(111) == "th";
    }
    assert OrdinalText(112) == "112th" by {
      assert Decimal.Text(112) == "112" by { assert Decimal.Text(11) == "11"; }
      assert Suffix(112) == "th";
    }
  }

  // ------------------------------------------------------------------- theme

  /** The theme the toggle button switches to: "dark" becomes "light", anything else "dark". */
  function NextTheme(t: string): (r: string)
    ensures r == Light <==> t == Dark
    ensures r == Dark <==> t != Dark
  {
    if t == Dark then Light else Dark
  }

  /** Toggling twice restores "dark" and "light"; any other stored value ends as "light". */
  lemma ToggleThemeTwice(t: string)
    ensures t == Dark || t == Light ==> NextTheme(NextTheme(t)) == t
    ensures t != Dark ==> NextTheme(NextTheme(t)) == Light
  {
  }

  // ------------------------------------------------------------------- store

  /** The stored count is present and non-empty, i.e. truthy. */
  predicate HasCount(store: map<string, string>) {
    VisitorKey in store && store[VisitorKey] != ""
  }

  /** A stored count, when there is one, is a string of decimal digits. */
  predicate CountWellFormed(store: map<string, string>) {
    HasCount(store) ==> Decimal.IsDigits(store[VisitorKey])
  }

  /** The theme a mount reads from the store: the stored value if non-empty, else "dark". */
  function SavedTheme(store: map<string, string>): (t: string)
    ensures t != ""
    ensures ThemeKey in store && store[ThemeKey] != "" ==> t == store[ThemeKey]
    ensures ThemeKey !in store || store[ThemeKey] == "" ==> t == Dark
  {
    if ThemeKey in store && store[ThemeKey] != "" then store[ThemeKey] else Dark
  }

  /** The home page component: its two state hooks, the `light` class on the document, and the store. */
  class HomePage {
    var visitorCount: nat
    var theme: string
    var lightClass: bool
    var store: map<string, string>

    /**
     * What is on screen is what a fresh mount would read back from the store:
     * reloading the page shows the same count and the same theme.
     */
    ghost predicate Persisted()
      reads this
    {
      HasCount(store) && Decimal.IsDigits(store[VisitorKey]) &&
      visitorCount == Decimal.Value(store[VisitorKey]) &&
      theme == SavedTheme(store) &&
      lightClass == (theme == Light)
    }

    /** First render: the state hooks hold their defaults and the document has no `light` class. */
    constructor (initialStore: map<string, string>)
      ensures visitorCount == 0 && theme == Dark && !lightClass
      ensures store == initialStore
    {
      visitorCount := 0;
      theme := Dark;
      lightClass := false;
      store := initialStore;
    }

    /** The mount effect: read the count (seeding it with "1" if unset) and the saved theme. */
    method Mount()
      requires CountWellFormed(store)
      modifies this
      ensures HasCount(old(store)) ==>
        visitorCount == Decimal.Value(old(store)[VisitorKey]) && store == old(store)
      ensures !HasCount(old(store)) ==>
        visitorCount == 1 && store == old(store)[VisitorKey := "1"]
      ensures theme == SavedTheme(old(store))
      ensures lightClass <==> theme == Light
      ensures Persisted()
    {
      if HasCount(store) {
        visitorCount := Decimal.Value(store[VisitorKey]);
      } else {
        store := store[VisitorKey := "1"];
        visitorCount := 1;
      }
      theme := SavedTheme(store);
      lightClass := theme == Light;
    }

    /** The "visit again" button: one more visitor, written back to the store as decimal text. */
    method IncrementVisitor()
      modifies this
      ensures visitorCount == old(visitorCount) + 1
      ensures store == old(store)[VisitorKey := Decimal.Text(visitorCount)]
      ensures Decimal.Value(store[VisitorKey]) == visitorCount
      ensures theme == old(theme) && lightClass == old(lightClass)
      ensures old(Persisted()) ==> Persisted()
    {
      var newCount := visitorCount + 1;
      visitorCount := newCount;
      store := store[VisitorKey := Decimal.Text(newCount)];
      Decimal.ValueOfText(newCount);
    }

    /** The theme button: switch theme, save it, and set the `light` class exactly for "light". */
    method ToggleTheme()
      modifies this
      ensures theme == NextTheme(old(theme))
      ensures store == old(store)[ThemeKey := theme]
      ensures lightClass <==> theme == Light
      ensures visitorCount == old(visitorCount)
      ensures SavedTheme(store) == theme
      ensures old(Persisted()) ==> Persisted()
    {
      var newTheme := NextTheme(theme);
      theme := newTheme;
      store := store[ThemeKey := newTheme];
      lightClass := newTheme == Light;
    }
  }
  /**
   * A first visit to a browser with no stored count, followed by `k` clicks on
   * the "visit again" button: the count, the stored text and the ordinal on
   * screen all describe visitor number k + 1.
   */
  method VisitRepeatedly(initialStore: map<string, string>, k: nat) returns (page: HomePage)
    requires !HasCount(initialStore)
    ensures page.visitorCount == k + 1
    ensures page.store == initialStore[VisitorKey := Decimal.Text(k + 1)]
    ensures OrdinalText(page.visitorCount) == OrdinalText(k + 1)
    ensures page.Persisted()
  {
    page := new HomePage(initialStore);
    page.Mount();
    assert Decimal.Text(1) == "1";
    var i := 0;
    while i < k
      invariant 0 <= i <= k
      invariant page.visitorCount == i + 1
      invariant page.store == initialStore[VisitorKey := Decimal.Text(i + 1)]
      invariant page.Persisted()
    {
      page.IncrementVisitor();
      i := i + 1;
    }
  }
}
