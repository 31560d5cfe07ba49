# Portfolio site: home-page counter, theme and ordinal; blog tag filter

This project models the small amount of stateful logic in a static portfolio website.
Everything else in the site is page markup.

- **Home page** (`src/app/page.tsx`). The page shows "you are currently the *N*th visitor". It keeps a visitor
  count and a colour theme ("dark" or "light") in component state. Both are mirrored in the browser's
  key/value store under the keys `visitorCount` and `theme`. On mount, the page reads both keys back. If there
  is no count, it seeds the count with "1". A button increments the count and another toggles the theme. The
  theme also sets or clears the `light` class on the document.
- **Blog page** (`src/app/blog/page.tsx`). The page has a fixed vocabulary of five tags and a list of selected
  tags. Clicking a tag removes it from the list if it is selected, and otherwise appends it.

Layout:

- `decimal.dfy`, module `Decimal`: the decimal text JavaScript prints for a non-negative integer (`Text`). It
  also gives the number a digit string denotes, as `parseInt` reads it (`Value`). `Value` undoes `Text`.
  `Text` undoes `Value` only on canonical digit strings, which have no leading zeros: "007" reads as 7, and 7 prints as "7".
- `home.dfy`, module `Home`: the ordinal suffix (`Suffix`, `OrdinalText`) and the theme switch (`NextTheme`).
  It also holds the class `HomePage`. The class has the fields `visitorCount`, `theme`, `lightClass` (the
  document's `light` class) and `store: map<string, string>` (the key/value store), and the methods `Mount`,
  `IncrementVisitor` and `ToggleTheme`. The module-level method `VisitRepeatedly` runs one mount and then k increments. The predicate `HomePage.Persisted` says that what is on screen is
  what a fresh mount would read from the store. `Mount` establishes it; the two button handlers preserve it.
- `blog.dfy`, module `Blog`: `ToggleTag` on `seq<string>`, with the filter `Without` and lemmas
  about membership, order, duplicates, toggling twice and the fixed vocabulary.

## Model

| member | source | states |
|---|---|---|
| `Decimal.Text` | src/app/page.tsx:30 | The printed count is canonical decimal text: digits only, non-empty, no leading zero except "0". Its last character is the units digit. |
| `Decimal.Value` | src/app/page.tsx:15 | `parseInt` on a digit string. The units digit of the value is the last character. A string that does not start with '0' denotes a positive number. |
| `Decimal.ValueIgnoresLeadingZero` | src/app/page.tsx:15 | A leading '0' does not change the value, so a stored "007" reads as 7. |
| `Decimal.LeadingZerosNotRestored` | src/app/page.tsx:15 | "007" reads as 7, which prints as "7": `Text` undoes `Value` only on canonical strings. |
| `Decimal.ValueOfText` | src/app/page.tsx:30 | The text written to the store for a count reads back as that same count. |
| `Decimal.TextOfValue` | src/app/page.tsx:15 | Any canonical digit string is exactly the text the number it denotes prints as. |
| `Home.Suffix` | src/app/page.tsx:40-47 | The suffix is one of "st", "nd", "rd", "th". "st" exactly when n % 10 == 1 and n % 100 != 11; likewise "nd" for 2/12 and "rd" for 3/13. "th" exactly when n % 100 is 11, 12 or 13, or the last digit is 0 or 4-9. |
| `Home.OrdinalText` | src/app/page.tsx:40-47 | The text `getOrdinalSuffix` returns: decimal digits, then the suffix. Its own contract gives only a length of at least 3. `OrdinalReadsBack`, `SuffixFollowsDigits` and the example lemmas state the rest. |
| `Home.OrdinalReadsBack` | src/app/page.tsx:40-47 | The ordinal text is the canonical decimal text of n, which reads back as n, followed by one of the four two-letter suffixes. |
| `Home.SuffixFollowsDigits` | src/app/page.tsx:41-46 | The modulo rule agrees, for every n, with the rule on written digits: a tens digit '1' gives "th"; otherwise units '1', '2', '3' give "st", "nd", "rd", and any other digit gives "th". |
| `Home.OrdinalUnitsExamples` | src/app/page.tsx:40-47 | 0th, 1st, 2nd, 3rd, 4th. |
| `Home.OrdinalTeensExamples` | src/app/page.tsx:40-47 | 11th, 12th, 13th. |
| `Home.OrdinalTwentiesExamples` | src/app/page.tsx:40-47 | 21st, 22nd, 23rd. |
| `Home.OrdinalHundredsExamples` | src/app/page.tsx:40-47 | 101st, 111th, 112th. |
| `Home.NextTheme` | src/app/page.tsx:34 | The new theme is "light" exactly when the old one was "dark". Every other old value gives "dark". |
| `Home.ToggleThemeTwice` | src/app/page.tsx:33-37 | Toggling twice restores "dark" and "light". Any other value that is not "dark" ends as "light". |
| `Home.SavedTheme` | src/app/page.tsx:22 | The mounted theme is never empty. It is the stored `theme` value when that value is non-empty, and "dark" otherwise. |
| `Home.HomePage.constructor` | src/app/page.tsx:8-9 | Before mount, the count is 0, the theme is "dark", the document has no `light` class and the store is given. |
| `Home.HomePage.Mount` | src/app/page.tsx:11-25 | A present, non-empty stored count becomes the count and the store is unchanged. Otherwise the count is 1 and the store gets `visitorCount` = "1". The theme is `SavedTheme` of the store. The `light` class is set exactly when the theme is "light". Afterwards `Persisted()` holds. |
| `Home.HomePage.IncrementVisitor` | src/app/page.tsx:27-31 | The count becomes old + 1. The store changes only at `visitorCount`, which becomes the new count's decimal text and reads back as it. The theme and class are unchanged. `Persisted()` is preserved. |
| `Home.HomePage.ToggleTheme` | src/app/page.tsx:33-38 | The theme becomes `NextTheme` of the old one. The store changes only at `theme`, which gets the new theme. The `light` class is set exactly for "light". The count is unchanged. A remount would read the same theme, and `Persisted()` is preserved. |
| `Home.VisitRepeatedly` | src/app/page.tsx:11-31 | From a store with no count, one mount followed by k increments leaves the count at k + 1. The store holds `Text(k + 1)` under `visitorCount` and nothing else changes. The page shows `OrdinalText(k + 1)`, and `Persisted()` holds. |
| `Blog.TagVocabulary` | src/app/blog/page.tsx:26 | The vocabulary has five tags, and they are distinct. |
| `Blog.Without` | src/app/blog/page.tsx:34 | `prev.filter(t => t !== tag)`. Its own contract says only that the result is no longer than the input. `WithoutMembers`, `WithoutCounts`, `WithoutAbsent` and `WithoutConcat` characterise it fully. |
| `Blog.WithoutMembers` | src/app/blog/page.tsx:34 | Filtering removes t, and the membership of every other tag is unchanged. |
| `Blog.WithoutCounts` | src/app/blog/page.tsx:34 | Filtering removes exactly the occurrences of t. The multiset is the input's with t's count zeroed, and the length drops by that count. |
| `Blog.WithoutAbsent` | src/app/blog/page.tsx:34 | Filtering out a tag that is not in the list returns the list unchanged. |
| `Blog.WithoutConcat` | src/app/blog/page.tsx:34 | Filtering distributes over concatenation, so the remaining elements keep their relative order. |
| `Blog.WithoutKeepsDistinct` | src/app/blog/page.tsx:34 | Filtering a list without duplicates gives a list without duplicates. |
| `Blog.ToggleTag` | src/app/blog/page.tsx:32-36 | t is in the result exactly when it was not in the input. No other tag's membership changes. An absent t is appended at the end, so the length grows by 1. A present t is removed with all its occurrences: the multiset loses t and nothing else, and the list gets shorter. |
| `Blog.ToggleAbsentTwice` | src/app/blog/page.tsx:34 | Toggling an absent tag twice gives back exactly the original list. |
| `Blog.TogglePresentTwice` | src/app/blog/page.tsx:34 | Toggling a present tag twice gives the list without t, followed by t. It has the same tags as before. |
| `Blog.TogglePresentTwiceDistinct` | src/app/blog/page.tsx:34 | On a list without duplicates, toggling a present tag twice keeps the same multiset: t only moves to the end. |
| `Blog.ToggleKeepsDistinct` | src/app/blog/page.tsx:34 | Toggling keeps a list free of duplicates. |
| `Blog.ToggleStaysInVocabulary` | src/app/blog/page.tsx:74-77 | Clicking a vocabulary tag keeps the selection a duplicate-free list of vocabulary tags, so it never holds more than the five tags of line 26. |

## Left out

- Browser storage is modelled as the `store` map field, not as a real API. The document's `light` class is the boolean `lightClass`. Setting `document.body.className` (src/app/ClientBody.tsx) is not modelled.
- Home.HomePage.Mount: requires that a present, non-empty stored count consists of decimal digits. `parseInt` on other strings (signs, spaces, trailing junk, NaN) is not modelled. Leading zeros are modelled: "007" reads as 7 and stays in the store unchanged.
- Decimal.Text: models the count as an unbounded natural number. JavaScript numbers are floating point, so above 2^53 they lose precision, and from 1e21 on they print in exponential notation. Neither is modelled.
- React rendering, hook scheduling and JSX layout are not modelled. The page calls `getOrdinalSuffix(visitorCount)` at src/app/page.tsx:147; the model states this through `OrdinalText`.
- The relative-time formatter and the lookup of recent GitHub activity do not exist in the code. The "last commit" card is fixed text (src/app/page.tsx:127-129). The "latest post" date "2 months ago" is a literal too (src/app/page.tsx:140). So neither is modelled.
- The blog search box stores its text but filters nothing, and the selected tags do not filter the posts either. Neither is modelled as filtering.
- src/app/guestbook/page.tsx, src/app/layout.tsx and src/app/ClientBody.tsx hold static content, metadata and script loading, and are not part of this model.
