# Multi-answer resolution panel and resolution emails, in Dafny

This project models two small, pure parts of the Manifold prediction-market code base.

* **The multi-answer resolve panel** (`AnswersResolvePanel` / `AnswersResolveOptions`). A market
  creator picks a resolve option: `CHOOSE_ONE`, `CHOOSE_MULTIPLE` or `CANCEL`. The panel keeps a
  map of chosen answers to weights, which its `onChoose` and `onDeselect` handlers edit. From the
  option and the chosen answers the panel derives whether
  the resolve button is disabled, its colour and its label. On resolve it applies two
  cardinality guards, normalises the weights to percentages and builds the body of the
  `market/:contractId/resolve` call. The body's shape depends on the market mechanism:
  `cpmm-multi-1` sends string answer ids and the option's name as outcome; the legacy mechanism
  sends `parseInt`-ed answer numbers and `MKT` for a multi-answer resolution.
* **Resolution emails** (`functions/src/emails.ts`). This covers how a resolution is displayed
  (`toDisplayResolution`), which recipients each sender skips, and the subjects, market URLs,
  unsubscribe URLs and first names the senders build.

Modules:

| file | module | contents |
|---|---|---|
| `optional.dfy` | `Optional` | `Option`, the stand-in for a value that may be `undefined` |
| `js_numbers.dfy` | `JsNumbers` | JavaScript `parseInt` with no radix; `/` with a possibly-zero divisor (`Infinity`/`NaN`); `${n}` for safe integers |
| `weights.dfy` | `Weights` | the chosen-answers map and sums of its values along an enumeration of its keys |
| `resolve_panel.dfy` | `ResolvePanel` | mode, panel state, button colour/label/disabled, `onChoose`/`onDeselect`/mode reset, `showChoice`, `chosenShare`, `chosenText` |
| `resolve.dfy` | `Resolve` | `onResolve`: guards, normalisation, request per mechanism, submitting flag and error message |
| `emails.dfy` | `Emails` | display of a resolution, eligibility of each sender, generated strings |

Weights and percentages are `real`, so they carry no floating-point rounding. A division by a
zero total gives `+Infinity`, `-Infinity` or `NaN`, as in JavaScript. Everything the code
obtains by I/O is a parameter: the private user and user look-ups, the probability of the
market, `formatPercent`, the formatted pool and creator fee, `isProd`, and the result of the
API call.

The model follows the code where the code behaves differently from what a reader of the
panel might expect:

* Selecting a resolve option only clears the chosen answers when the option changes. The
  clearing is an effect keyed on the option, so re-selecting the current option leaves the
  choice as it is.
* `onResolve` has no guard against a call already in flight. Only the button looks at
  `isSubmitting`.
* A successful resolution clears neither the chosen answers nor an earlier error message.
* In `CHOOSE_ONE` mode the button is disabled only when nothing is chosen. A choose-one panel
  with two or more chosen answers would be enabled and then silently refused by `onResolve`.
  No sequence of option changes and handler calls produces such a panel, and
  `ReplayKeepsChooseOneShape` proves this.
* `ResolutionAnswerItem` receives `showChoice`, `onChoose` and `onDeselect` but uses none of
  them: the rows it draws offer no radio button or check box, and nothing in the file calls
  either handler. In this code the chosen answers therefore stay empty, and only option changes
  happen (`OptionChangesKeepChoiceEmpty`). The choose-one and choose-multiple buttons then stay
  disabled. `Choose` and `Deselect` model the handlers as written. `ReplayKeepsChooseOneShape`
  and `ReachableDisabledMatchesTable` cover any sequence of calls to them, which is more than
  this file can produce.
* `onResolve` does not check the weights again. Two chosen answers at weight 0 leave the button
  disabled, but a call to `onResolve` still sends them, with `NaN` percentages.

## Model

| member | source | states |
|---|---|---|
| `ResolvePanel.ModeName` | web/components/us-elections/contracts/candidates-panel/candidate-resolve-panel.tsx:75 | the three resolve options have the three distinct names `CHOOSE_ONE`, `CHOOSE_MULTIPLE`, `CANCEL`, both ways |
| `ResolvePanel.ButtonColorOf` | web/components/us-elections/contracts/candidates-panel/candidate-resolve-panel.tsx:32-46 | the button is indigo exactly when it is disabled; yellow exactly for cancel; green exactly for an enabled choose-one; blue exactly for an enabled choose-multiple |
| `ResolvePanel.ButtonLabel` | web/components/us-elections/contracts/candidates-panel/candidate-resolve-panel.tsx:61-71 | `N/A` for cancel, the chosen text for choose-one; otherwise a text ending in ` answers` whose leading number is a run of decimal digits with no leading zero (unless the count is 0), which `parseInt` reads back as the number of chosen answers; with nothing chosen the label is exactly `0 answers` |
| `ResolvePanel.CountLabelShape` | web/components/us-elections/contracts/candidates-panel/candidate-resolve-panel.tsx:70 | `${n} answers` is a run of decimal digits, with no leading zero unless n is 0, followed by ` answers`; for n = 0 it is exactly `0 answers` |
| `JsNumbers.NatToString` | web/components/us-elections/contracts/candidates-panel/candidate-resolve-panel.tsx:70 | the count in the label is a non-empty string of decimal digits with no leading zero |
| `ResolvePanel.ButtonDisabled` | web/components/us-elections/contracts/candidates-panel/candidate-resolve-panel.tsx:48-59 | the button is never disabled for cancel; for choose-one it is disabled exactly when nothing is chosen; for choose-multiple exactly when `Submittable` forbids submitting (fewer than two answers or a weight that is not positive) |
| `ResolvePanel.ReachableDisabledMatchesTable` | web/components/us-elections/contracts/candidates-panel/candidate-resolve-panel.tsx:48-59 | on every panel reachable from the initial one by option changes and calls to the two handlers, the button is disabled exactly when `Submittable` (one answer / two or more positive weights / cancel always) forbids submitting |
| `ResolvePanel.OptionChangesKeepChoiceEmpty` | web/components/us-elections/contracts/candidates-panel/candidate-resolve-panel.tsx:334-366 | when only the resolve option changes, as the answer rows never call `onChoose` or `onDeselect`, the choice stays empty and the button is disabled exactly outside cancel |
| `ResolvePanel.SecondAnswerTogglesButton` | web/components/us-elections/contracts/candidates-panel/candidate-resolve-panel.tsx:48-59 | in choose-multiple mode one positive answer leaves the button disabled, adding a second enables it, deselecting the second disables it again |
| `ResolvePanel.SelectMode` | web/components/us-elections/contracts/candidates-panel/candidate-resolve-panel.tsx:241-243 | changing the option empties the chosen answers; selecting the current option changes nothing; the submitting flag and error are kept |
| `ResolvePanel.ReselectingModeKeepsChoice` | web/components/us-elections/contracts/candidates-panel/candidate-resolve-panel.tsx:241-243 | choosing an answer and then re-selecting the same option keeps the answer chosen |
| `ResolvePanel.Choose` | web/components/us-elections/contracts/candidates-panel/candidate-resolve-panel.tsx:247-261 | in choose-one the choice becomes exactly `{id: 100}`; otherwise only key `id` changes: it is set to the weight, or removed when the weight is undefined |
| `ResolvePanel.Deselect` | web/components/us-elections/contracts/candidates-panel/candidate-resolve-panel.tsx:263-269 | the answer is no longer chosen and every other answer keeps its weight, in any mode |
| `ResolvePanel.ApplyKeepsChooseOneShape` | web/components/us-elections/contracts/candidates-panel/candidate-resolve-panel.tsx:241-269 | each option change or handler call keeps a choose-one panel at no more than one chosen answer, at weight 100 |
| `ResolvePanel.ReplayKeepsChooseOneShape` | web/components/us-elections/contracts/candidates-panel/candidate-resolve-panel.tsx:241-269 | any sequence of option changes and calls to `onChoose`/`onDeselect` keeps a choose-one panel at no more than one chosen answer, at weight 100 |
| `ResolvePanel.ShowChoice` | web/components/us-elections/contracts/candidates-panel/candidate-resolve-panel.tsx:271-277 | `showChoice` is `'radio'` exactly for an unresolved choose-one market, `'checkbox'` exactly for an unresolved choose-multiple market, and undefined otherwise |
| `ResolvePanel.ChoiceControlMatchesChoose` | web/components/us-elections/contracts/candidates-panel/candidate-resolve-panel.tsx:247-277 | when `showChoice` is radio, a call to `onChoose` leaves exactly that answer chosen; when it is checkbox, the call adds the answer and keeps the others |
| `ResolvePanel.ChosenShare` | web/components/us-elections/contracts/candidates-panel/candidate-resolve-panel.tsx:350-351 | the share is the weight over the total when both are present and non-zero, and 0 otherwise |
| `ResolvePanel.FindAnswer` | web/components/us-elections/contracts/candidates-panel/candidate-resolve-panel.tsx:96 | returns the position of the first answer with the id, or nothing exactly when no answer has it |
| `ResolvePanel.ChosenAnswer` | web/components/us-elections/contracts/candidates-panel/candidate-resolve-panel.tsx:95-100 | for `cpmm-multi-1`, an answer is found exactly when some answer has the first chosen id, and it has that id; for the legacy mechanism the result is one of the market's answers |
| `ResolvePanel.LegacyAnswerAt` | web/components/us-elections/contracts/candidates-panel/candidate-resolve-panel.tsx:97-100 | a legacy look-up only ever yields one of the market's answers |
| `ResolvePanel.ChosenText` | web/components/us-elections/contracts/candidates-panel/candidate-resolve-panel.tsx:101 | the chosen text is the text of the answer the first chosen id names, and `an answer` when it names none |
| `ResolvePanel.CpmmChosenTextByID` | web/components/us-elections/contracts/candidates-panel/candidate-resolve-panel.tsx:95-101 | on `cpmm-multi-1` the text is that of the first answer whose id is the first chosen id, and `an answer` when no answer has that id |
| `ResolvePanel.LegacyChosenTextByPosition` | web/components/us-elections/contracts/candidates-panel/candidate-resolve-panel.tsx:97-101 | on the legacy mechanism a first id that is the decimal number n shows the text of the answer at position n (n - 1 in a free-response market), and `an answer` when that position is outside the list |
| `ResolvePanel.EmptyChoiceIsAnAnswer` | web/components/us-elections/contracts/candidates-panel/candidate-resolve-panel.tsx:95-101 | with nothing chosen both mechanisms show `an answer` (the legacy look-up reads `parseInt(undefined)`, which is `NaN`) |
| `ResolvePanel.LegacyChosenAnswerByPosition` | web/components/us-elections/contracts/candidates-panel/candidate-resolve-panel.tsx:97-100 | a legacy id that is the decimal number n names the answer at position n, or n - 1 in a free-response market |
| `JsNumbers.ParseIntOfNatToString` | web/components/us-elections/contracts/candidates-panel/candidate-resolve-panel.tsx:130 | `ParseInt` (`parseInt`) reads a decimal id back as its number, whatever follows it other than a digit, `x` or `X` |
| `JsNumbers.ParseIntSkipsWhitespace` | web/components/us-elections/contracts/candidates-panel/candidate-resolve-panel.tsx:99 | `ParseInt` ignores a leading whitespace character |
| `JsNumbers.ParseIntRejectsNonNumeric` | web/components/us-elections/contracts/candidates-panel/candidate-resolve-panel.tsx:115 | `ParseInt` of a blank id, or of one that starts with anything but whitespace, a sign or a digit, is `NaN` |
| `JsNumbers.ParseIntOfNonzeroDigit` | web/components/us-elections/contracts/candidates-panel/candidate-resolve-panel.tsx:130 | `ParseInt` of an id that starts with a digit 1-9 is a number, and not a negative one |
| `JsNumbers.ParseIntOfMinus` | web/components/us-elections/contracts/candidates-panel/candidate-resolve-panel.tsx:115 | `ParseInt` of an id that starts with `-` is never positive |
| `JsNumbers.ParseIntOfIntToString` | functions/src/emails.ts:71 | the payout text `${Math.round(payout)}` is a decimal rendering of the rounded payout that `parseInt` reads back as exactly that integer, negative or not |
| `JsNumbers.ParseIntOfDecimal` | web/components/us-elections/contracts/candidates-panel/candidate-resolve-panel.tsx:115 | `parseInt` inverts the decimal rendering of every natural number |
| `Weights.SumOverSign` | web/components/us-elections/contracts/candidates-panel/candidate-resolve-panel.tsx:109 | `SumOver` (the `totalProb` sum) of non-negative weights is non-negative, and of a non-empty list of positive weights is positive |
| `Weights.SumOverPermutation` | web/components/us-elections/contracts/candidates-panel/candidate-resolve-panel.tsx:109 | two duplicate-free listings of the same keys give the same sum |
| `Weights.SumOverEnumerationsAgree` | web/components/us-elections/contracts/candidates-panel/candidate-resolve-panel.tsx:245 | the total of the chosen weights does not depend on the order `Object.values` lists them in |
| `Weights.EnumerationSize` | web/components/us-elections/contracts/candidates-panel/candidate-resolve-panel.tsx:90 | `Object.keys` of the chosen answers has exactly as many entries as there are chosen answers |
| `JsNumbers.Divide` | web/components/us-elections/contracts/candidates-panel/candidate-resolve-panel.tsx:112 | a non-zero total gives the finite quotient; a zero total gives `Infinity`, `-Infinity` or `NaN` according to the sign of the weight |
| `Resolve.Percentages` | web/components/us-elections/contracts/candidates-panel/candidate-resolve-panel.tsx:110-116 | one share per listed answer, in listing order, naming that answer, with `100 * weight / total` as JavaScript divides |
| `Resolve.Normalize` | web/components/us-elections/contracts/candidates-panel/candidate-resolve-panel.tsx:109-116 | one share per listed answer; when the weights' sum is non-zero each share is finite and times the sum gives 100 times the weight; when it is zero every share is `NaN` or infinite |
| `Resolve.PercentagesSum` | web/components/us-elections/contracts/candidates-panel/candidate-resolve-panel.tsx:109-116 | for any non-zero divisor, the percentages are finite and sum to 100 times the weights' sum over the divisor |
| `Resolve.NormalizedSumIs100` | web/components/us-elections/contracts/candidates-panel/candidate-resolve-panel.tsx:109-116 | whenever the weights do not sum to zero, the percentages are finite and sum to exactly 100 |
| `Resolve.NormalizePreservesOrder` | web/components/us-elections/contracts/candidates-panel/candidate-resolve-panel.tsx:109-116 | with a positive total, one weight is at most (below) another exactly when its percentage is at most (below) the other's |
| `Resolve.NormalizeAtTotal100` | web/components/us-elections/contracts/candidates-panel/candidate-resolve-panel.tsx:111-113 | weights that already sum to 100 are their own percentages (`{A: 30, B: 70}` sends 30 and 70) |
| `Resolve.NormalizeOrderIndependent` | web/components/us-elections/contracts/candidates-panel/candidate-resolve-panel.tsx:109-116 | an answer's percentage is the same however the chosen answers are listed |
| `Resolve.ChosenShareMatchesPercentage` | web/components/us-elections/contracts/candidates-panel/candidate-resolve-panel.tsx:350-351 | the share bar of an answer row is its resolution percentage divided by 100 |
| `Resolve.Resolutions` | web/components/us-elections/contracts/candidates-panel/candidate-resolve-panel.tsx:110-116 | one resolution per listed answer with its normalised percentage; by string id on `cpmm-multi-1`, by `parseInt` of the id on the legacy mechanism |
| `Resolve.LegacyOutcome` | web/components/us-elections/contracts/candidates-panel/candidate-resolve-panel.tsx:126-133 | a legacy outcome is the parsed first id exactly in choose-one mode; cancel sends the option's own name `CANCEL`; choose-multiple sends `MKT`, not the option's name |
| `Resolve.Request` | web/components/us-elections/contracts/candidates-panel/candidate-resolve-panel.tsx:118-136 | every request carries the contract id and has resolutions exactly in choose-multiple mode, on both mechanisms |
| `Resolve.OnResolve` | web/components/us-elections/contracts/candidates-panel/candidate-resolve-panel.tsx:103-136 | no request exactly when choose-one has other than one chosen answer or choose-multiple has fewer than two; a request carries the contract id and has resolutions exactly in choose-multiple |
| `Resolve.SubmittableIsSent` | web/components/us-elections/contracts/candidates-panel/candidate-resolve-panel.tsx:104-105 | everything `Submittable` allows is sent |
| `Resolve.ZeroWeightsAreStillSent` | web/components/us-elections/contracts/candidates-panel/candidate-resolve-panel.tsx:103-116 | two answers at weight 0 disable the button, yet `onResolve` sends them, with `NaN` percentages |
| `Resolve.MultipleRequestCarriesShares` | web/components/us-elections/contracts/candidates-panel/candidate-resolve-panel.tsx:109-136 | a choose-multiple request has one resolution per chosen answer with its normalised percentage, summing to 100 when the weights do not sum to zero |
| `Resolve.CpmmRequestShape` | web/components/us-elections/contracts/candidates-panel/candidate-resolve-panel.tsx:118-125 | on `cpmm-multi-1` the outcome is the option's name, the answer id is sent exactly in choose-one and is then the only chosen answer, and resolutions name chosen answers by string id |
| `Resolve.LegacyRequestShape` | web/components/us-elections/contracts/candidates-panel/candidate-resolve-panel.tsx:126-136 | on the legacy mechanism no answer id is sent; the outcome is `parseInt` of the only chosen id, `MKT` or `CANCEL` by option; resolutions name answers by `parseInt` of the id |
| `Resolve.CancelIgnoresChoice` | web/components/us-elections/contracts/candidates-panel/candidate-resolve-panel.tsx:118-136 | a cancel request is the same whatever answers are chosen, and has no resolutions |
| `Resolve.LegacyChooseOneSendsNumber` | web/components/us-elections/contracts/candidates-panel/candidate-resolve-panel.tsx:126-136 | on the legacy mechanism choosing the answer with id `"n"` sends exactly outcome n, with no resolutions and no answer id |
| `Resolve.StartResolve` | web/components/us-elections/contracts/candidates-panel/candidate-resolve-panel.tsx:103-107 | the request sent is exactly the one `onResolve` builds, under its guards; the panel is then submitting exactly if it was or a request was sent; mode, choice and error are kept |
| `Resolve.NoInFlightGuard` | web/components/us-elections/contracts/candidates-panel/candidate-resolve-panel.tsx:103-107 | calling `onResolve` again while a request is in flight builds another request; only the button reads `isSubmitting` |
| `Resolve.FinishResolve` | web/components/us-elections/contracts/candidates-panel/candidate-resolve-panel.tsx:138-150 | after the call the panel is idle; an API error shows its `toString()` text, any other failure `Error resolving question`; success keeps the last error; the choice is kept in every case |
| `Resolve.ResolveAttemptKeepsChoice` | web/components/us-elections/contracts/candidates-panel/candidate-resolve-panel.tsx:138-150 | a whole attempt, successful or not, leaves mode and chosen answers unchanged, the panel idle and the choose-one invariant intact |
| `Emails.ToDisplayResolution` | functions/src/emails.ts:22-37 | `MKT` with resolutions shows `MULTI`; `YES`/`NO` show themselves; `CANCEL` shows `N/A`; `MKT` alone shows `formatPercent(prob)`; any other outcome o shows `#o` |
| `Emails.DisplayRoundTrip` | functions/src/emails.ts:22-37 | every outcome other than `MKT` is recovered from its display |
| `Emails.DisplayIgnoresProbability` | functions/src/emails.ts:27 | the display depends on the probability only for `MKT` without resolutions; `MKT` with resolutions is `MULTI` whatever the probability |
| `Emails.PrefixBefore` | functions/src/emails.ts:91 | the first piece of a split is a prefix without the separator, followed in the string by the separator or by nothing |
| `Emails.PrefixBeforeUnique` | functions/src/emails.ts:91 | any string with those three properties is the first piece of the split |
| `Emails.FirstName` | functions/src/emails.ts:123 | the first name is a prefix of the name without a space, and is followed in the name by a space or by nothing |
| `Emails.FirstNameOfFullName` | functions/src/emails.ts:123 | the first name of `first + " " + rest` is `first` when `first` has no space |
| `Emails.MarketUrl` | functions/src/emails.ts:72 | every market address starts with `https://manifold.markets/` |
| `Emails.MarketUrlRoundTrip` | functions/src/emails.ts:127 | a market address gives back its username and slug when the username has no `/` |
| `Emails.UnsubscribeUrl` | functions/src/emails.ts:161-163 | the link starts with the environment's unsubscribe endpoint, continues with `?id=` and the user id, and ends with `&type=` and the email kind |
| `Emails.UnsubscribeUrlRoundTrip` | functions/src/emails.ts:161-163 | the link names whom it unsubscribes and from what: the user id and the kind are read back from it whenever the id has no `&` |
| `Emails.UnsubscribeEndpointByEnvironment` | functions/src/emails.ts:204-206 | the endpoint is the same for every user and kind, differs between production and development, and a link never starts with the other environment's endpoint |
| `Emails.MarketResolutionEmail` | functions/src/emails.ts:48-73 | sent exactly when `Reachable` holds for resolution emails (a private user with a non-empty address who has not unsubscribed) and the user exists; the subject is `Resolved <display>: <question>` and the URL is the creator's market address |
| `Emails.MarketCloseEmail` | functions/src/emails.ts:115-127 | sent exactly when `Reachable` holds for resolution emails (the private user has an address and is subscribed); greets the first name and links to the market under the user's username |
| `Emails.NewCommentEmail` | functions/src/emails.ts:150-169 | sent exactly when `Reachable` holds for comment emails (the recipient has an address and is subscribed); the unsubscribe link names the recipient's id and has type `market-comment` |
| `Emails.NewAnswerEmail` | functions/src/emails.ts:191-209 | sent to the creator exactly when `Reachable` holds for answer emails (they have an address and are subscribed); the unsubscribe link has type `market-answer` and the creator's id |
| `Emails.EachSenderHasItsOwnSetting` | functions/src/emails.ts:150-156 | `Reachable`, and so whether a sender sends, depends on its own unsubscribe setting and the address, never on the other two settings |
| `Emails.UnsubscribingIsSelective` | functions/src/emails.ts:192-198 | unsubscribing from one kind stops that kind and keeps the others |
| `Emails.Welcome` | functions/src/emails.ts:87-96 | the welcome email goes to the address or the empty address and greets the user by first name |

## Left out

- The `market/:contractId/resolve` call itself: its result is an input to `FinishResolve`. The `toString()` text of an `APIError` (its name, a colon and its message) is taken as given.
- The order `Object.keys` lists keys in (integer-like keys first, ascending, then insertion order): the listing is a parameter that names each chosen answer once. The sums and percentages are proved not to depend on it.
- The render between selecting an option and the clearing effect: the model keeps only the state after the effect has run.
- A resolve option of `undefined`, which the three button helpers accept: the panel always holds one of the three options.
- React hooks (`useUser`, `useAdmin`, `useUserByIdOrAnswer`), JSX, CSS classes and `console.log`.
- `getAnswerProbability`, `getAnswerColor`, `getProbability`, `formatPercent`, `formatMoney`: code that is not part of this model. They are parameters or inputs.
- `addAnswersMode` / `showAvatars` and the answer-row layout: they only decide what is drawn.
- `IndependentAnswersResolvePanel` and `IndependentResolutionAnswerItem`: the `-Infinity`/probability `sortBy` is a floating-point ordering of rows for display.
- Floating point: IEEE rounding of the percentages, a `-0` total, and `Math.round(payout)`. `MarketResolutionEmail` takes the payout already rounded.
- `JsNumbers.IntToString`: like `NatToString`, it is the exact decimal rendering of every integer, whereas JavaScript's `${n}` is exact only for safe integers (below 2^53) and uses exponent form from 10^21 on. The counts and ids rendered here are far below both bounds.
- `JsNumbers.ParseInt`: loss of precision above 2^53 and `ToString` of non-string arguments are not modelled.
- `ToDisplayResolution`: an outcome that names a property inherited by every JavaScript object (`toString`, `constructor`, `__proto__`, ...) is shown as `#` plus the outcome. The source would look up the inherited value instead.
- `Welcome`: only the recipient, subject and greeting line are modelled. The rest of the body is fixed text.
- `sendTemplateEmail`, `sendTextEmail`, `getPrivateUser`, `getUser`: the senders return the email they would send, and the look-up results are parameters.
- `ChosenText`: the answer's `text` is assumed to be present.
- `web/pages/feed-timeline.tsx`, `web/pages/index.tsx`, `web/components/page.tsx`: data fetching, timers and layout are not part of this model.
