# Mobile fintech dashboard: transaction filter, badge tone and initials

This project models the two pieces of logic in a React Native banking
dashboard mockup that compute something rather than render it:

- the dashboard's transaction list: the search box and category filter that
  choose which transactions are shown, and the badge colour of each row;
- the `getInitials` helper, which turns a name into at most two upper-case
  initials.

Both are pure functions of their inputs, so the model is written as Dafny
datatypes, functions and lemmas:

- `text.dfy` (module `Text`): the JavaScript string operations used, with
  ASCII case mapping: `toLowerCase`, `toUpperCase`, `includes`, `split` on a
  one-character separator, `join`, `charAt` and `slice`.
- `lists.dfy` (module `Lists`): `Array.prototype.filter` and the properties
  of any filter (subsequence, multiplicities, concatenation, idempotence).
- `dashboard.dfy` (module `Dashboard`): the `Transaction` record,
  `getBadgeTone`, the two filter predicates and the filtered list.
- `helpers.dfy` (module `Helpers`): `getInitials`, an independent reference
  definition ("the characters that start a word") and what follows from it.

Two datatypes carry the data: `Dashboard.Transaction` is the transaction
record of src/types/index.ts:5-12 (identifier, date, description, amount,
category, reference code), and `Dashboard.Tone` holds the three badge tones
returned at src/screens/DashboardScreen.tsx:94-96. Datatypes have no contract
of their own, so they have no row in the table below; `Dashboard.BadgeTone`
states what the tones mean.

The transaction list is an arbitrary input sequence; the query and the
category filter are parameters. On the screen the category filter is never
changed from its initial `"all"`, but the filter is modelled for every value.

## Model

| member | source | states |
|---|---|---|
| `Dashboard.BadgeTone` | src/screens/DashboardScreen.tsx:91-97 | the tone is green exactly for a non-negative amount, amber exactly for a negative amount in the category `Bill` (case-sensitive), slate exactly for every other negative amount |
| `Dashboard.SearchText` | src/screens/DashboardScreen.tsx:143 | definition of the searched text; its length is the four field lengths plus three separators and it starts with the date followed by a space; `Dashboard.SearchTextLayout` places every field |
| `Dashboard.SearchTextLayout` | src/screens/DashboardScreen.tsx:143 | date, description, category and reference code occur in that order, each followed by one space except the last |
| `Dashboard.MatchesQuery` | src/screens/DashboardScreen.tsx:142-146 | definition of the text predicate; its contract says an empty query accepts every row and a non-empty one accepts exactly when the lower-cased query occurs at some index of the lower-cased search text; `Dashboard.QueryMatch` restates this field by field |
| `Dashboard.MatchesType` | src/screens/DashboardScreen.tsx:147-150 | definition of the category predicate; its contract says exactly `all` accepts every row and any other value accepts exactly the categories equal to it character by character up to ASCII case; see also `Dashboard.UpperAllIsNotSentinel` and `Dashboard.FilteredIgnoresCase` |
| `Dashboard.Matches` | src/screens/DashboardScreen.tsx:151 | definition of the row predicate: a row is shown exactly when the query is empty or occurs in it, and the category value is `all` or equals its category up to case |
| `Dashboard.FilteredTransactions` | src/screens/DashboardScreen.tsx:140-153 | the shown rows are a subsequence of the list (order kept); every shown row passes both predicates; every row of the list that passes both is shown |
| `Dashboard.QueryMatch` | src/screens/DashboardScreen.tsx:142-146 | an empty query accepts every row; a non-empty one accepts a row exactly when its lower-cased form occurs in the lower-cased date, description, category and reference joined by single spaces |
| `Dashboard.UpperAllIsNotSentinel` | src/screens/DashboardScreen.tsx:147-150 | the value `ALL` is not the sentinel: it accepts a row exactly when its category lower-cases to `all` |
| `Dashboard.FilteredCount` | src/screens/DashboardScreen.tsx:141-152 | a row passing both predicates is shown as many times as it occurs in the list, any other row not at all |
| `Dashboard.NoCriteriaShowsAll` | src/screens/DashboardScreen.tsx:137-153 | with the initial empty query and the `all` category the whole list is shown unchanged |
| `Dashboard.FilteredIdempotent` | src/screens/DashboardScreen.tsx:140-153 | filtering the shown rows again with the same query and category shows the same rows |
| `Dashboard.FilteredAppend` | src/screens/DashboardScreen.tsx:141-152 | the rows shown from two lists put together are those shown from the first followed by those shown from the second |
| `Dashboard.FilteredIgnoresCase` | src/screens/DashboardScreen.tsx:142-150 | queries and category values equal up to letter case show the same rows, when both or neither is the `all` sentinel |
| `Dashboard.QueryExample` | src/screens/DashboardScreen.tsx:142-146 | the query `coffee` keeps the "Coffee Shop" row and drops the "Salary Deposit" row |
| `Dashboard.CategoryExample` | src/screens/DashboardScreen.tsx:147-150 | the category value `income` keeps the row of category `Income` and drops the `Dining` row |
| `Dashboard.NoMatchExample` | src/screens/DashboardScreen.tsx:142-146 | the query `zzz` shows no rows of the two-row example |
| `Lists.Filter` | src/screens/DashboardScreen.tsx:141 | the result is no longer than the input, a subsequence of it, holds only accepted elements and every accepted element of the input |
| `Lists.FilterMultiset` | src/screens/DashboardScreen.tsx:141 | an accepted element keeps its multiplicity, a rejected one gets multiplicity zero |
| `Lists.FilterAppend` | src/screens/DashboardScreen.tsx:141 | filtering distributes over concatenation |
| `Lists.FilterAllAccepted` | src/screens/DashboardScreen.tsx:141 | a list whose elements are all accepted is returned unchanged |
| `Lists.FilterIdempotent` | src/screens/DashboardScreen.tsx:141 | filtering twice with the same callback equals filtering once |
| `Lists.FilterAgree` | src/screens/DashboardScreen.tsx:141 | callbacks agreeing on every element give the same result |
| `Text.ToLower` | src/screens/DashboardScreen.tsx:144-145 | same length, no upper-case ASCII letter left, each character kept or an upper-case letter moved to its lower-case form |
| `Text.ToLowerAppend` | src/screens/DashboardScreen.tsx:143-144 | lower-casing a concatenation lower-cases each part |
| `Text.Includes` | src/screens/DashboardScreen.tsx:145 | true exactly when the needle occurs at some index of the text |
| `Text.Join` | src/utils/helpers.ts:20 | definition of `join`: no pieces give the empty string, otherwise the result starts with the first piece; for a one-character separator `Text.Split` (joining the pieces restores the input) and `Text.SplitJoin` fix it; for the empty separator of `join('')`, `Helpers.JoinNothingCons` gives the step, and in `getInitials` `Helpers.FirstCharsOfPieces` fixes the joined result |
| `Helpers.JoinNothingCons` | src/utils/helpers.ts:20 | joining with the empty separator is the first piece followed by the join of the remaining pieces, also when none remain |
| `Text.Split` | src/utils/helpers.ts:18 | at least one piece, no piece contains the separator, and joining the pieces with the separator gives back the input |
| `Text.SplitJoin` | src/utils/helpers.ts:18 | splitting the join of separator-free pieces gives back the pieces |
| `Text.CharAt` | src/utils/helpers.ts:19 | at most one character: the character at the index, or empty exactly when the index is out of range |
| `Text.ToUpper` | src/utils/helpers.ts:21 | same length, no lower-case ASCII letter left, each character kept or a lower-case letter moved to its upper-case form |
| `Text.Slice` | src/utils/helpers.ts:22 | the length is the clamped range's width, and each character is the input's at the offset |
| `Helpers.FirstChars` | src/utils/helpers.ts:19 | definition of `map(word => word.charAt(0))`: one entry per piece, each empty exactly for an empty piece and otherwise that piece's first character; `Helpers.FirstCharsOfPieces` states what joining them gives |
| `Helpers.GetInitials` | src/utils/helpers.ts:16-23 | the initials have at most two characters and contain no lower-case ASCII letter |
| `Helpers.FirstCharsOfPieces` | src/utils/helpers.ts:17-20 | joining the first characters of the space-separated pieces gives exactly the characters that start a word |
| `Helpers.InitialsAreWordStarts` | src/utils/helpers.ts:16-23 | the initials are the first two upper-cased characters that start a word |
| `Helpers.WordStartsAppend` | src/utils/helpers.ts:18-19 | the word starts of a concatenation are those of each part, the second read after the first |
| `Helpers.LeadingSpaceIgnored` | src/utils/helpers.ts:18-19 | a leading space does not change the initials |
| `Helpers.TrailingSpaceIgnored` | src/utils/helpers.ts:18-19 | a trailing space does not change the initials |
| `Helpers.RepeatedSpaceIgnored` | src/utils/helpers.ts:18-19 | a doubled space between words does not change the initials |
| `Helpers.InitialsOfWords` | src/utils/helpers.ts:17-22 | for non-empty words joined by single spaces, the initials are the upper-cased first letters of the first two words |
| `Helpers.EmptyNameHasNoInitials` | src/utils/helpers.ts:16-23 | the empty name gives the empty string |
| `Helpers.TwoWordExample` | src/utils/helpers.ts:16-23 | `ada lovelace` gives `AL` |
| `Helpers.ThreeWordExample` | src/utils/helpers.ts:16-23 | `Grace Brewster Hopper` gives `GB` |

## Left out

- Rendering, styles, navigation, the theme context and the alert handlers: they compute nothing.
- The login screen: its submit runs inside an asynchronous timer and compares against a fixed demonstration credential, which is not reproduced.
- `currency` and `formatDate` in src/utils/helpers.ts: they call locale formatting and date parsing of the JavaScript runtime, which cannot be seen.
- The mock fixture data: src/utils/mockData is not part of this model; the list is an arbitrary input.
- Memoisation of the filtered list: it only caches the same pure result.
- `Dashboard.Transaction`: `amount` is an integer, not a floating-point number, so NaN (which would make a row amber or slate) and fractional amounts are not modelled; only the sign matters to the modelled code.
- `Text.ToLower`: only ASCII letters change case; full Unicode case mapping (including mappings that change the length, such as German sharp s upper-casing to two letters) is not modelled.
- `Text.ToUpper`: ASCII only, as for `Text.ToLower`.
- `Helpers.GetInitials`: a JavaScript string is a sequence of UTF-16 code units, so `charAt(0)` can return half of a surrogate pair; here a string is a sequence of Dafny characters.
- `Text.Slice`: only non-negative bounds are modelled; negative bounds, which count from the end in JavaScript, do not occur in the source.
