# CRASHOUT journaling app — a Dafny model of its logic

CRASHOUT is a small React journaling app. A signed-in user logs "crashouts":
short descriptions of a bad moment, each in one of seven categories. For every
entry a remote text generator supplies a one-line quote and a drama level from
1 to 10. A fixed per-category table stands in when no key is configured or the
call fails. The app also keeps a list of friends and can send an entry to one of
them as that friend's last message. It has a search view over the history. The
service module can also build a monthly recap ("wrapped"), although the main
component never calls it. The recap holds:

- the total;
- the most and second most frequent categories;
- the busiest weekday;
- a generated or fixed narrative.

This project models that logic and proves what it promises:

- `types.dfy` (module `Types`): the records of the app, the seven categories with
  their labels, and `Reply<T>`. A `Reply<T>` is what one request to the remote
  generator ends in: the call rejects (`CallFailed`), its text does not parse
  (`Unparsable`), or it parses to a payload.
- `js_string.dfy` (module `JsString`): the JavaScript string operations the app
  relies on:
  - `trim` (over the white-space set of ECMA-262);
  - `split('@')[0]`;
  - `replace('@', '')`, which removes the first occurrence only;
  - `includes`;
  - the decimal rendering of a count inside a template literal.
- `ranking.dfy` (module `Ranking`): the frequency ranking that the recap applies
  twice. First, a `reduce` counts keys into an object. The method `Tally` does
  this with a loop over a map, and each key is recorded at its first
  occurrence. Then `Object.entries` lists the object's keys in insertion order,
  because category labels and weekday names are not integer-like. Finally the
  stable `Array.prototype.sort` orders them by descending count. The sort is
  specified by the function `SortByCount` and proved to do the following:
  - it is a permutation;
  - it is descending;
  - it puts the first maximal entry in front.

  From this follows what the recap needs. The first key of the ranking is a
  most frequent key, and ties go to the earliest first occurrence. The second
  key is the most frequent among the rest, with the same tie rule.
- `feedback.dfy` (module `Feedback`): `getLocalFallbackResponse` and
  `getAIFeedback`. The configured key is a parameter, and so is the reply. The
  value of `Math.random()` is a parameter too.
- `recap.dfy` (module `Recap`): `generateWrapped`. It is the aggregation
  (method `GenerateWrapped`, using `Ranking.RankKeys`), then the recap built
  from the reply, or the rejected promise when the call fails. The
  locale-dependent weekday conversion is a function parameter `weekdayOf`.
- `app.dfy` (module `App`): the main component as a class `App.App`.
  - Its fields are the component state that the handlers touch.
  - Each handler is a method. Its postcondition gives the whole new state
    (`Snapshot()`) as an update of the old one.
  - The list updates are the functions `NewEntry`, `NewFriend`, `ShareMessage`
    and `DeliverTo`. The search filter is the function `SearchResults`.
  - Lemmas give what these functions promise.
  - `Valid()` is the class invariant: every logged drama level lies in 1..10.
    The constructor establishes it, and every handler requires and keeps it.
- `auth.dfy` (module `Auth`): the login form's submit handler.

Two behaviours of the code are easy to misread:

- One might expect an unparsable reaction to get the quote "The chaos is
  palpable." and level 5. In the code (services/geminiService.ts:67-70) a
  parse error goes to the per-category table instead.
  `Feedback.FailuresFallBack` states this.
- One might expect the recap to fall back to its fixed text when the generator
  fails. In the code the remote call of `generateWrapped`
  (services/geminiService.ts:100-127) is outside any `try`. So only a parse
  failure reaches the fixed recap, and a failed call rejects the promise
  (`Recap.WrappedOutcome.Rejected`). `Recap.Narrate` states this.

## Model

| member | source | states |
|---|---|---|
| Types.Label | types.ts:2-9 | every category label is non-empty, so a label is truthy wherever the source falls back on a default with `\|\|` |
| Types.CategoryOfLabel | types.ts:2-9 | a string names a category exactly when it is one of the seven labels, and then it names the category with that label |
| Types.LabelRoundTrip | types.ts:2-9 | labels identify categories: reading a category's label back gives the category |
| JsString.Trim | App.tsx:93 | `trim()` is never longer than its input and neither starts nor ends with white space |
| JsString.TrimStartSpec | App.tsx:93 | trimming the start drops a blank prefix and leaves a string that is empty or starts with a non-white-space character |
| JsString.TrimEndSpec | App.tsx:93 | trimming the end drops a blank suffix and leaves a string that is empty or ends with a non-white-space character |
| JsString.TrimSpec | App.tsx:93 | `trim()` is the input less a blank prefix and a blank suffix, and neither starts nor ends with white space |
| JsString.TrimEmptyIffBlank | App.tsx:119 | `!s.trim()` holds exactly when `s` is all white space (or empty) |
| JsString.BeforeFirst | App.tsx:122 | `split('@')[0]` is no longer than the handle and holds no '@' |
| JsString.BeforeFirstSpec | App.tsx:122 | `split('@')[0]` is the longest prefix without '@', followed by '@' unless it is the whole string |
| JsString.RemoveFirst | App.tsx:123 | `replace('@', '')` is one character shorter when there is an '@' and of the same length otherwise |
| JsString.RemoveFirstSpec | App.tsx:123 | `replace('@', '')` joins the text before the first '@' with the text after it |
| JsString.RemoveFirstRemovesOne | components/AuthPage.tsx:18 | the replace removes exactly one '@' when there is one and changes nothing otherwise |
| JsString.Includes | App.tsx:231 | a string includes only queries no longer than itself |
| JsString.IncludesEmpty | App.tsx:231 | every string includes the empty query |
| JsString.NatToString | services/geminiService.ts:149 | the rendering of a count is a non-empty string of decimal digits without a leading zero |
| JsString.DecimalRoundTrip | services/geminiService.ts:149 | reading the rendered digits back gives the count |
| Ranking.Count | services/geminiService.ts:79-82 | a key's count is at most the length and is positive exactly when the key occurs |
| Ranking.CountAppend | services/geminiService.ts:80 | counting one more key adds one to its own count and nothing to any other |
| Ranking.FirstIndex | services/geminiService.ts:84 | the first index holds the key and no earlier position does |
| Ranking.FirstSeen | services/geminiService.ts:84 | the object's keys are exactly the distinct keys of the history, each once |
| Ranking.FirstSeenAppend | services/geminiService.ts:80 | one more key is listed at the end unless it was seen before |
| Ranking.FirstIndexAppend | services/geminiService.ts:84 | a key keeps its first index when the history grows |
| Ranking.FirstSeenOrdered | services/geminiService.ts:84 | `Object.entries` lists the keys in order of first occurrence |
| Ranking.Tallied | services/geminiService.ts:79-84 | `Object.entries` of the tally pairs each listed key with a count that is at most the history's length and positive exactly when the key occurs |
| Ranking.Insert | services/geminiService.ts:85 | one step of the stable sort adds exactly one entry |
| Ranking.SortByCount | services/geminiService.ts:85 | the sort keeps the number of entries |
| Ranking.InsertPermutes | services/geminiService.ts:85 | inserting into the sorted list neither loses nor adds entries |
| Ranking.SortByCountPermutes | services/geminiService.ts:85 | the sort is a permutation of the entries |
| Ranking.InsertAtMost | services/geminiService.ts:85 | insertion keeps every count at most a bound that all inputs respect |
| Ranking.InsertDescending | services/geminiService.ts:85 | inserting into a descending list keeps it descending |
| Ranking.SortByCountDescending | services/geminiService.ts:85 | the sort with comparator `b - a` orders counts from largest to smallest |
| Ranking.FirstMax | services/geminiService.ts:85 | the first maximal entry has the largest count, strictly larger than all entries before it |
| Ranking.WithoutAt | services/geminiService.ts:85 | removing one entry shifts the later entries one place forward |
| Ranking.SortAppend | services/geminiService.ts:85 | sorting one more entry inserts it into the sorted rest |
| Ranking.FirstMaxAppend | services/geminiService.ts:85 | the first maximum after one more entry is the new entry only if it is strictly larger |
| Ranking.WithoutAppend | services/geminiService.ts:85 | removing an entry commutes with appending a later one |
| Ranking.SortSelectsFirstMax | services/geminiService.ts:85 | the stable sort puts the first maximal entry in front and sorts the rest the same way |
| Ranking.Ranking | services/geminiService.ts:84-86 | the ranking has one place for each distinct key |
| Ranking.RankedIffPresent | services/geminiService.ts:84-86 | a key is ranked exactly when it occurs in the history |
| Ranking.RankedOnce | services/geminiService.ts:84-86 | no key is ranked at two places |
| Ranking.RankingListsKeysOnce | services/geminiService.ts:84-86 | the ranking lists exactly the history's keys, each once |
| Ranking.RankingHead | services/geminiService.ts:84-88 | the first ranked key occurs in the history as often as any key, and among equally frequent keys it occurs first |
| Ranking.ShiftedMax | services/geminiService.ts:85 | a first maximum of the list without the front entry is a first maximum of the rest of the whole list |
| Ranking.SecondMaxIsRunnerUp | services/geminiService.ts:85 | the entry placed second is the first entry of largest count among all but the front one |
| Ranking.SortSecond | services/geminiService.ts:85 | the sort places that runner-up second |
| Ranking.RankingSecond | services/geminiService.ts:84-89 | the second ranked key differs from the first, occurs as often as any other key, and wins its ties by first occurrence |
| Ranking.TotalCountSnoc | services/geminiService.ts:84 | listing one more key adds its count to the total |
| Ranking.TotalCountStep | services/geminiService.ts:79-82 | one more counted key adds one to the total of the listed keys exactly when it is listed |
| Ranking.CountsSumToLength | services/geminiService.ts:78-82 | the per-key counts add up to the number of entries |
| Ranking.Counts | services/geminiService.ts:79-82 | the tally object has exactly the keys of the history |
| Ranking.CountsAppend | services/geminiService.ts:80 | one step of the reduce is `acc[k] = (acc[k] \|\| 0) + 1` |
| Ranking.Tally | services/geminiService.ts:79-82 | the reduce's loop yields the keys in order of first occurrence and each key's count |
| Ranking.RankKeys | services/geminiService.ts:84-86 | counting, listing and sorting the keys gives the ranking |
| Feedback.TableQuote | services/geminiService.ts:11-19 | every table quote is non-empty, so the `\|\|` default never replaces it, and none is one of the two default quotes |
| Feedback.FallbackQuote | services/geminiService.ts:11-22 | the fallback quote is never empty |
| Feedback.FallbackQuoteOfLabel | services/geminiService.ts:11-22 | each label finds its own entry of the fallback table |
| Feedback.FallbackQuoteUnknown | services/geminiService.ts:11-22 | 'The chaos is off the charts.' is the quote exactly for strings that are not a label |
| Feedback.FallbackQuotesDistinct | services/geminiService.ts:11-19 | different categories have different fallback quotes |
| Feedback.FallbackDrama | services/geminiService.ts:23 | `floor(r*10)+1` for `r` in [0,1) is an integer from 1 to 10; in exact arithmetic it is the number of the tenth of the unit interval that `r` falls in |
| Feedback.FallbackDramaCoversRange | services/geminiService.ts:23 | every level from 1 to 10 can be drawn |
| Feedback.LocalFallback | services/geminiService.ts:10-25 | the fallback reaction is the table's quote and the random level |
| Feedback.ClampDrama | services/geminiService.ts:65 | the clamp lands in 1..10, keeps an in-range level, and sends the others to the nearer bound |
| Feedback.ClampIdempotent | services/geminiService.ts:65 | clamping a clamped level changes nothing |
| Feedback.FromPayload | services/geminiService.ts:62-66 | a parsed reply keeps a non-empty quote and otherwise gets 'The chaos is palpable.'; its level is clamped, or 5 when it is not a number |
| Feedback.GetAIFeedback | services/geminiService.ts:27-75 | the reaction always has a non-empty quote and a level in 1..10; no key, a failed call or an unparsable reply give the fallback, and a parsed reply is post-processed |
| Feedback.NoKeyIgnoresReply | services/geminiService.ts:29-32 | without a key the reaction does not depend on the remote generator |
| Feedback.FailuresFallBack | services/geminiService.ts:61-74 | a failed call and an unparsable reply both end in the category fallback; nothing is thrown |
| Feedback.ParsedKeepsValidFields | services/geminiService.ts:63-66 | a parsed reply with a non-empty quote and an in-range level is returned as it is |
| Recap.CategoriesOf | services/geminiService.ts:79-82 | the counted keys are the entries' categories, in history order |
| Recap.DaysOf | services/geminiService.ts:91-95 | the counted days are the weekdays of the entries' timestamps, in history order |
| Recap.TopOf | services/geminiService.ts:88 | `sortedCategories[0] \|\| 'Other'` is the first ranked category, and 'Other' only when nothing is ranked |
| Recap.SecondOf | services/geminiService.ts:89 | `sortedCategories[1] \|\| 'Silly / Random'` is the second ranked category, and 'Silly / Random' only when fewer than two are ranked |
| Recap.DayOf | services/geminiService.ts:97-98 | the most active day is never empty: it is the first ranked name, or 'Unknown Day' |
| Recap.Aggregate | services/geminiService.ts:78-98 | the total is the history's length, and an empty history gets 'Other', 'Silly / Random' and 'Unknown Day' |
| Recap.Narrate | services/geminiService.ts:100-152 | the promise rejects exactly when the call fails; otherwise the recap carries the four aggregates unchanged |
| Recap.GenerateWrapped | services/geminiService.ts:77-153 | the computed recap is the one the aggregates of the history and the reply determine |
| Recap.TopCategoryIsMostFrequent | services/geminiService.ts:79-88 | the top category is most frequent, wins its ties by first occurrence, and is 'Other' for an empty history |
| Recap.SecondCategoryIsRunnerUp | services/geminiService.ts:84-89 | with two or more categories the second one is the runner-up with the same tie rule, and with fewer it is 'Silly / Random' |
| Recap.SingleCategoryHasDefaultSecond | services/geminiService.ts:88-89 | a non-empty history in one category has that category on top and 'Silly / Random' second, even when the category is 'Silly / Random' itself |
| Recap.MostActiveDayIsBusiest | services/geminiService.ts:91-98 | a non-empty history whose weekday names are non-empty gets a busiest weekday, first among equals; any day other than 'Unknown Day' is one; an empty history gets 'Unknown Day' |
| Recap.CategoryCountsSumToTotal | services/geminiService.ts:78-82 | the total is the history's length and the category counts add up to it |
| Recap.FallbackRecap | services/geminiService.ts:141-151 | an unparsable reply gives score 99, the fixed headline and closing line, and one stat line whose leading number has no leading zero and reads back as the total |
| Recap.ParsedRecap | services/geminiService.ts:130-140 | a parsed reply keeps its texts and its score, and a missing or zero score becomes 88 |
| App.CategoriesListsEachOnce | App.tsx:13-15 | the category buttons offer every category exactly once |
| App.LevelsInRangePrepend | App.tsx:105 | putting an entry in front keeps all drama levels in 1..10 exactly when the entry's level is |
| App.NewEntry | App.tsx:97-104 | the new entry has the form's text and category, the caption or "Manifesting a better day..." when it is empty, and the reaction's quote and level |
| App.NewFriend | App.tsx:120-126 | a new friend is named by the text before the first '@', has the handle less its first '@' as username, is 'CHILLING' and has no message |
| App.NewFriendNameStartsUsername | App.tsx:122-123 | the new friend's name starts its username, and the username is one character shorter than the handle when it has an '@' |
| App.ShareMessage | App.tsx:135 | the message is the caption between double quotes, then " - ", then the description |
| App.DeliverTo | App.tsx:133-138 | the friends keep length, order and every field but the last message, which becomes the message for friends with the id |
| App.DeliverToOverwrites | App.tsx:133-138 | a second share to the same friend replaces the first message |
| App.DeliverToUnknownId | App.tsx:133-138 | a share to an id no friend has changes nothing |
| App.SearchResults | App.tsx:231 | every listed entry is from the history and its description contains the query |
| App.SearchResultsAppend | App.tsx:231 | the filter keeps history order |
| App.SearchResultsComplete | App.tsx:231 | every entry whose description contains the query is listed |
| App.SearchEmptyQueryShowsAll | App.tsx:231 | the empty query lists the whole history |
| App.App.constructor | App.tsx:18-35 | the component starts signed out, with empty lists and form, on the home view, category 'Other', and with the class invariant `Valid()` (every drama level in 1..10) |
| App.App.HandleAuth | App.tsx:63 | signing in sets the user and nothing else |
| App.App.HandleLogout | App.tsx:64-67 | signing out clears the user and nothing else |
| App.App.HandleCrashClick | App.tsx:69-72 | the input form is shown and nothing else changes |
| App.App.SetView | App.tsx:238-240 | the navigation sets the view and nothing else |
| App.App.EditForm | App.tsx:161-167 | the form's inputs set the text, caption and category and nothing else |
| App.App.EditSearches | App.tsx:200-230 | the handle box (line 200) and the search box (line 230) set their fields and nothing else |
| App.App.StartShare | App.tsx:178 | a card's share button picks the entry to share and nothing else |
| App.App.CancelShare | App.tsx:271 | cancelling the share sheet drops the pick and nothing else |
| App.App.LogCrashout | App.tsx:105-114 | the new entry is put in front of the old history, the form is reset and hidden, the view becomes the archive, and `isLogging` ends false; the user, friends and searches are kept; an entry with an in-range level keeps `Valid()` |
| App.App.SubmitCrashout | App.tsx:91-116 | a blank text or a submit in progress changes nothing; otherwise the new state is the old one with the new entry in front and the form reset; `Valid()` is kept |
| App.App.HandleAddFriend | App.tsx:118-129 | a blank handle changes nothing; otherwise exactly one friend built from the handle is appended and the handle box is cleared |
| App.App.HandleInternalShare | App.tsx:131-141 | with nothing picked nothing changes; otherwise the friends with the id get the share message and the pick is cleared |
| App.App.Searched | App.tsx:231 | the search view lists only history entries that contain the current query |
| Auth.HandleSubmit | components/AuthPage.tsx:14-20 | no user is produced exactly when a field is empty; otherwise the name is kept and the username loses its first '@' |
| Auth.PasswordNotStored | components/AuthPage.tsx:16-18 | the password decides only whether a user is produced, never its contents |
| Auth.BlankFieldsAccepted | components/AuthPage.tsx:16 | fields of white space only pass the check, as nothing is trimmed |
| Auth.UsernameLosesFirstAt | components/AuthPage.tsx:18 | the username loses exactly one '@' when it has one and is kept as typed otherwise |
| Auth.LoneAtGivesEmptyUsername | components/AuthPage.tsx:18 | the username "@" signs in with an empty username |

## Left out

- The Gemini SDK call, its prompts and its response schemas are not modelled. They are foreign code. A `Reply<T>` value stands for what the call ends in.
- `Feedback.GetAIFeedback` has no `description` parameter: the description only shapes the prompt, which the reply stands for.
- Console warnings and error logs are left out.
- The configured key is a parameter. In the source it is a module constant read from the build environment.
- JavaScript strings are sequences of UTF-16 code units, while a Dafny `char` here is a Unicode scalar value. This does not change `trim`, `split('@')`, `replace('@', '')` or `includes` on well-formed text, but lone surrogates are not modelled.
- `Math.random`, the random ids and `Date.now()` are parameters. The model does not show that ids are at most 9 base-36 characters (`Math.random().toString(36).substr(2, 9)` is shorter for some draws, such as 0.5).
- The weekday conversion `toLocaleDateString` depends on locale and time zone, so `weekdayOf` is a parameter.
- Feedback.FallbackDrama: the product `r * 10` is taken as an exact real, while the source computes it in IEEE-754 doubles, which round. For a few doubles just below a multiple of 0.1 (0.3, 0.6, 0.7, 0.8999999999999999) the product rounds up to the next integer, so the source's level is one higher than the model's. The range 1..10 holds either way.
- Feedback.FromPayload: a numeric `dramaLevel` is modelled as an integer, so NaN, infinities and fractions are not covered. The source's `typeof x === 'number'` lets NaN through the clamp, and a fraction is kept as it is.
- Feedback.FromPayload: a truthy `funnyQuote` that is not a string is not covered.
- Feedback.FallbackQuote: the table is looked up only by label. Keys inherited from `Object.prototype` (such as "constructor") would yield a function in the source, and are not covered.
- Recap.Narrate: missing `headline`, `statLines` or `closingLine` fields of a parsed recap are not covered. The source copies them as `undefined`.
- Recap.Narrate: a `chaosScore` of NaN is not covered. A non-numeric `chaosScore` is not covered either.
- Ranking.Ranking: `Object.entries` lists integer-like keys first in ascending order. The model always uses first-occurrence order. That order is the right one for category labels and weekday names, which are never integer-like.
- Ranking.SortByCount: the model gives the library sort's result, not an in-place algorithm. The source does not implement the sort; it calls `Array.prototype.sort`.
- `localStorage` loading and saving of the history, the friends and the user are not modelled. Neither is the `isCheckingAuth` flag that guards the first render (App.tsx:39-61, 143-144). This is storage I/O.
- App.App.SubmitCrashout: the handler is modelled as one atomic step. In the source it awaits the feedback, and `isLogging` is true during that wait. It refuses overlapping submits, and it also disables the crash button while the reaction is pending (App.tsx:158, components/CrashButton.tsx:17), so `handleCrashClick` cannot fire then. The model does not capture this pending state or any interleaving. The `catch` branch is not modelled because the feedback call never rejects.
- `handleShareApp`, `navigator.share`, the clipboard, `alert` and the delayed input focus are not modelled. They are browser APIs.
- The friend detail modal (`selectedFriend`) and the wrapped modal (`showWrapped`, `wrappedData`) are display state only and are not modelled. The component never calls `generateWrapped`.
- The markup of every component is not modelled. Header.tsx, CrashButton.tsx, CrashCard.tsx and WrappedModal.tsx are presentational only.
