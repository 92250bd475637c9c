# Football live-match scanner: a Dafny model of its scanning core

The system is a Telegram bot that polls a football data feed for live
fixtures every 33 seconds. For each live match it reads the fixture id, the
team names, the goals and the elapsed minute. It keeps only matches whose
league name contains the name of one of eight top competitions. It then
applies three betting triggers, tried in order:

1. an early goal: minutes 27 to 38 at 0:0;
2. a late single-goal lead: minute 72 or later at 1:0 or 0:1;
3. a late draw: minute 65 or later at 1:1.

When a trigger fires, it sends one message and remembers the fixture in a
dedup set, so the match is not signalled again while its id stays in the set. The set is emptied as soon
as it holds more than 500 ids. An error while handling one match skips that
match only.

The model has these modules:

- `Score` formats goal counts the way the scanner does (decimal text, `home:away`). It proves that the formatting is injective, so comparing score text is comparing goal counts.
- `Leagues` holds the substring test and the top-league allow-list.
- `Records` covers a fetched record whose keys may be missing, null or present, and the extraction of the fields the rules read, including the `or 0` defaults and the cases that raise.
- `Triggers` covers the league filter and the three-rule chain.
- `Feed` covers the fetch reduced to "the response list, or the empty list".
- `Scanner` covers the dedup policy (`Admit`), one loop iteration (`Step`) and one whole cycle as a left fold (`Run`). It also holds the lemmas about them and the class `LiveScanner`. That class keeps the dedup set as a field and has the per-match and per-cycle methods, each proved equal to the functions.

`Run` (the loop of main.py:81-126) and `FireRule` (the if/elif chain of main.py:104-114) are the specification functions the rest is stated against. They have no contracts of their own: `ScanCycle`, `RunKeepsCapacity`, `RunWithoutClear`, `RunSignalsFiringMatch` and `SilentRecordIsInvisible` state what `Run` does, and `EvaluateFollowsRules` states what `FireRule` decides. The helpers `Digit`, `OrZero` and `NameText` are covered by the contracts of `DecimalText` and `Extract`.

## Model

| member | source | states |
|---|---|---|
| Score.DecimalText | main.py:90 | the text of a goal count is non-empty and all digits, and it is one character exactly when the count is below ten |
| Score.DecimalTextInjective | main.py:90 | two counts have the same decimal text if and only if they are equal |
| Score.ScoreTextInjective | main.py:90 | two `home:away` score texts are equal if and only if both goal counts are equal, so the scanner's string comparisons (lines 105-113) are comparisons of goals |
| Leagues.ContainsFrom | main.py:99 | the scan from position i finds the needle if and only if the needle occurs at some position at or after i |
| Leagues.Contains | main.py:99 | Python's `in` on strings: true if and only if the name is a substring of the league |
| Leagues.AnyContained | main.py:99 | `any(...)` over the list: true if and only if some listed name is a substring of the league |
| Leagues.TopLeagueIsAllowListed | main.py:95-100 | the executable filter agrees with the allow-list definition (some top competition name occurs in the league name), in both directions |
| Leagues.AllowListClosedUnderEmbedding | main.py:99 | a league that passes keeps passing when text is added before or after its name (for example "UEFA Champions League - Group A") |
| Records.Extract | main.py:83-92 | extraction succeeds if and only if every key read is present and the league name is a string; on success the fixture, both team names, the goals, the minute and the league are the record's values, with 0 for null goals and a null minute (`x or 0`) and "None" for a null team name (an f-string of a null value) |
| Triggers.Evaluate | main.py:95-114 | a signal carries the match's own fixture, team names and league |
| Triggers.EvaluateFollowsRules | main.py:99-114 | no signal outside the allow-list; otherwise trigger 1 fires if and only if rule 1 holds, trigger 2 if and only if rule 2 holds and rule 1 does not, trigger 3 if and only if rule 3 holds and the first two do not, all stated on goal counts; the signal's score is the formatted score |
| Feed.LiveMatches | main.py:61-73 | records come only from a 200 answer; a transport error or another status gives the empty list; a decoded 200 answer gives its `response` list, and a 200 answer whose body does not decode or has no `response` key gives the empty list |
| Scanner.Admit | main.py:118-122 | adding a fixture yields a set of at most 500 ids; it is the old set plus the fixture, or empty when the addition took it past 500; it is the old set plus the fixture exactly when that union holds at most 500 ids |
| Scanner.Step | main.py:83-126 | a match that yields no signal leaves the set unchanged; a failed send yields no signal and no change; a delivered signal names the record's fixture, which was not yet in the set, and the set becomes `Admit` of it; conversely, a match whose fixture is not in the set, whose fields can be read, for which a rule fires and whose message is sent is signalled with the trigger engine's signal and its fixture admitted |
| Scanner.StepSkips | main.py:84-85 | a match is skipped with the set unchanged when a key is missing (lines 124-126), when its fixture was already signalled, or when its league is not allow-listed (lines 99-100); any signal delivered is the trigger engine's |
| Scanner.RunKeepsCapacity | main.py:116-122 | a scan cycle that starts with at most 500 ids ends with at most 500 ids |
| Scanner.RunWithoutClear | main.py:81-122 | in a cycle in which the set is never cleared, no fixture is signalled twice or was signalled before, and the set afterwards is the set before plus exactly the signalled fixtures |
| Scanner.RepeatedPollIsSilent | main.py:84-85 | polling the same records again right after such a cycle, with the same send outcomes, delivers nothing and leaves the set as it is |
| Scanner.SilentRecordIsInvisible | main.py:124-126 | a record that delivers nothing (a skipped or failing match, or a failed send) leaves the rest of the cycle exactly as if it had not been fetched |
| Scanner.RunSignalsFiringMatch | main.py:81-118 | within a cycle, a match whose fixture is not in the set at its turn, whose fields can be read, for which a rule fires and whose message is sent adds exactly its signal at its position and is admitted to the set |
| Scanner.RepeatedFixtureScenario | main.py:80-122 | a concrete cycle: a Premier League match at 0:0 in minute 30 gets one trigger-1 signal; a second poll of the same feed gets none |
| Scanner.LiveScanner.constructor | main.py:59 | the dedup set starts empty |
| Scanner.LiveScanner.HandleMatch | main.py:83-126 | handling one match changes the set and returns the signal exactly as `Step` does, and keeps the set within 500 ids |
| Scanner.LiveScanner.ScanCycle | main.py:80-126 | the loop over the fetched matches leaves the set and returns the delivered signals exactly as `Run` does, and keeps the set within 500 ids |

## Left out

- The HTTP request, the request headers, the 20-second timeout and JSON decoding are left out. The outcome of one request is a `FetchOutcome` parameter of `Feed.LiveMatches`.
- Sending a Telegram message is left out. Whether the send completed without raising is a boolean parameter of `Step`, `Run`, `HandleMatch` and `ScanCycle`, one per record.
- The emoji and HTML text of the signal message is left out. A `Signal` carries the rule and the fields the text is built from.
- The `while True` loop, the 33-second sleep and the background task are left out; the model covers one cycle. The outer exception handler is left out too: it only logs.
- The /start and /status command handlers, the keep-alive web server, reading the configuration from the environment and exiting when it is missing are left out. None of them changes the scanner's state: /status only reports the size of the dedup set and polls the feed once.
- A fixture id that is present but null is not modelled. The source would record `None` in the dedup set; the model treats the id as an integer, or as missing, in which case the match is skipped.
- A `response` value that is not a list is left out. A null or otherwise non-iterable value makes the whole cycle fail in the outer handler. A dict or a string is iterated, and each of its elements then fails inside the per-match handler and is skipped.
- Goal and minute values that are not non-negative integers are left out: a negative number, a float or a string. The same holds for team and league names that are not strings, except a null league, which is modelled as raising.
- Concurrency between the scanner task and the command handlers is left out. The handlers only read the dedup set.
