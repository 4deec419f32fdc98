# Tolling Vision sample client, modelled in Dafny

The Tolling Vision sample client walks an image folder and keeps the files whose
names end in `.png`, `.jpg`, `.jpeg` or `.bmp`. It groups them into vehicle
events by the first match of a group pattern in the file name. For each event
it builds an `EventRequest` whose front, rear and overview image lists are
chosen by three role patterns. It sends one `analyze` call per event, with at
most N calls in flight, and writes one CSV row per event result.

This project models that core as pure functions over immutable data and proves
what it computes:

- `Files`: the directory walk (`listFilesRecursively`) over an in-memory tree.
  A directory whose listing fails is the `Unlisted` entry. The extension test is
  proved equal to the language of the regular expression `.*\.(png|jpg|jpeg|bmp)$`
  under `String.matches`.
- `Grouping`: `groupImages`, the `groupingBy` collector keyed by
  `find() ? group() : "ungrouped"`.
- `Request`: `createEventRequest`, written as a loop and proved equal to three
  order-preserving filters. Unreadable files are skipped. The result is `None`
  (Java's `null`) when no image was classified.
- `Report`: the row `onNext` appends. This covers the display lists recomputed
  with whole-name matching, `formatPlate`, `formatMmr` and the ten-column
  `String.format`. `Text` interprets `String.format` for `%s`, `%d` and `%%`,
  so the formatters' outputs are derived, not assumed.
- `Accounting`: the semaphore and latch of `main` as a state machine over
  events (acquire, skip a null request, dispatch, `onNext`, `onError`,
  `onCompleted`), with an invariant that every event keeps.
- `Scenarios`: worked examples on the files `crossing1_front.jpg` and
  `crossing1_rear.jpg`.

A compiled `java.util.regex.Pattern` is an abstract value (`Patterns.Pattern`):
what `find()`+`group()` return and what `matches` answers for a string.
Properties that depend on the engine state their assumption as a precondition.
`FindsSubstrings` says a found match is a substring of the input.
`WholeMatchIsFound` says a whole-string match is also found.

Notable behaviour of the code:

- The file-name columns use `String.matches`, which must match the whole name,
  while the request uses `find()`. With the role patterns `front`, `rear` and
  `overview`, the columns for `crossing1_front.jpg` and `crossing1_rear.jpg`
  are therefore empty and the row is `,,,N1,,,,,,` followed by a newline
  (`Scenarios.CrossingRow`). The files are still sent as one front and one
  rear image (`Scenarios.CrossingRequest`).
- Files without a group match go to the key `"ungrouped"`. A file whose group
  match is the text `ungrouped` lands in the same group
  (`Grouping.UngroupedCollision`).
- The rear display list excludes only the overview list, not the front list
  (`Report.FrontRearOverlap`).
- A ceiling N ≤ 0 is accepted by `Integer.parseInt`. With at least one group,
  the first `acquire` then never returns (`Accounting.NonPositiveCeilingBlocks`).

## Model

Source paths are relative to the repository root.

| member | source | states |
|---|---|---|
| Files.ImageTestMatchesRegex | src/main/java/com/smartcloudsolutions/tollingvision/TollingVisionSample.java:181 | The extension test accepts a lower-cased name exactly when the extension pattern matches it as a whole: a prefix free of line terminators, a dot, then png, jpg, jpeg or bmp. |
| Files.ListFilesRecursively | src/main/java/com/smartcloudsolutions/tollingvision/TollingVisionSample.java:173-188 | Every returned file has an image name. A non-directory or a directory whose listing fails yields the empty list. |
| Files.ListFilesMembership | src/main/java/com/smartcloudsolutions/tollingvision/TollingVisionSample.java:173-188 | A file is returned exactly when it lies below the folder through listable directories and its name passes the extension test. |
| Grouping.GroupImages | src/main/java/com/smartcloudsolutions/tollingvision/TollingVisionSample.java:190-196 | The keys are exactly the classifier values of the files. Each group is the subsequence of the input with that key, in input order. |
| Grouping.GroupsNonEmpty | src/main/java/com/smartcloudsolutions/tollingvision/TollingVisionSample.java:193-196 | No group is empty. |
| Grouping.GroupMembership | src/main/java/com/smartcloudsolutions/tollingvision/TollingVisionSample.java:193-196 | A file is in the group of a key iff it is an input file whose classifier value is that key. |
| Grouping.GroupKeyMeaning | src/main/java/com/smartcloudsolutions/tollingvision/TollingVisionSample.java:194-195 | A file in group k had `find()` return k, or k is "ungrouped" and `find()` failed. |
| Grouping.GroupKeyOccurs | src/main/java/com/smartcloudsolutions/tollingvision/TollingVisionSample.java:194-195 | For an engine whose matches are substrings, every key other than "ungrouped" occurs in the names of its group's files. |
| Grouping.UngroupedCollision | src/main/java/com/smartcloudsolutions/tollingvision/TollingVisionSample.java:195 | A file whose match is the text "ungrouped" shares a group with a file that has no match. |
| Grouping.GroupSizesSum | src/main/java/com/smartcloudsolutions/tollingvision/TollingVisionSample.java:190-196 | The group sizes add up to the number of files, so every file is in exactly one group. |
| Request.CreateEventRequest | src/main/java/com/smartcloudsolutions/tollingvision/TollingVisionSample.java:199-238 | The loop builds exactly the request given by three filters: readable files, classified overview-then-front-then-rear by `find()`, in input order, and None when all lists are empty. |
| Request.RoleMembership | src/main/java/com/smartcloudsolutions/tollingvision/TollingVisionSample.java:220-226 | A file is an overview, front or rear image iff it is readable and the precedence chain picks that role. |
| Request.RolesPartition | src/main/java/com/smartcloudsolutions/tollingvision/TollingVisionSample.java:220-226 | As multisets, the three role lists partition the readable files that match some role pattern. |
| Request.RoleCountsSum | src/main/java/com/smartcloudsolutions/tollingvision/TollingVisionSample.java:92-93 | The image count of a request equals the number of classified files. |
| Request.RequestNullIff | src/main/java/com/smartcloudsolutions/tollingvision/TollingVisionSample.java:229-237 | The request is null iff no readable file matches a role pattern. Otherwise its image count is the positive number of such files. |
| Request.UnreadableSkipped | src/main/java/com/smartcloudsolutions/tollingvision/TollingVisionSample.java:209-216 | Removing an unreadable file from anywhere in a group leaves the request unchanged. |
| Report.FormatPlate | src/main/java/com/smartcloudsolutions/tollingvision/TollingVisionSample.java:240-244 | The formatted plate is text, country, state and category separated by blanks, then the three confidences in decimal, each followed by `%`, in the template's layout. |
| Report.FormatMmr | src/main/java/com/smartcloudsolutions/tollingvision/TollingVisionSample.java:246-249 | The formatted MMR is make and model, then generation, category, body type and view point in parentheses. |
| Report.MmrColourIgnored | src/main/java/com/smartcloudsolutions/tollingvision/TollingVisionSample.java:247-248 | Changing the colour never changes the output: the seventh argument has no conversion. |
| Text.IntToDecimalRoundTrip | src/main/java/com/smartcloudsolutions/tollingvision/TollingVisionSample.java:241-243 | The decimal text a `%d` conversion produces reads back as the same integer, sign included. |
| Report.DisplayMembership | src/main/java/com/smartcloudsolutions/tollingvision/TollingVisionSample.java:97-107 | A file is in the overview display list iff its whole name matches the overview pattern. It is in the front or rear list iff its whole name matches that pattern and not the overview pattern. |
| Report.DisplayOverviewDisjoint | src/main/java/com/smartcloudsolutions/tollingvision/TollingVisionSample.java:97-107 | The overview display list shares no file with the front or the rear list. |
| Report.FrontRearOverlap | src/main/java/com/smartcloudsolutions/tollingvision/TollingVisionSample.java:104-107 | A file whose whole name matches front and rear but not overview is shown in both the front and the rear column. |
| Report.DisplayOverviewWasSentAsOverview | src/main/java/com/smartcloudsolutions/tollingvision/TollingVisionSample.java:97-99 | If a whole-name match is also found, a readable file shown as overview was sent as an overview image. |
| Text.JoinOccurrences | src/main/java/com/smartcloudsolutions/tollingvision/TollingVisionSample.java:109-114 | Joining n strings adds exactly n-1 separators to those the strings already hold. |
| Report.FormatRow | src/main/java/com/smartcloudsolutions/tollingvision/TollingVisionSample.java:127-129 | The row template renders any ten strings joined by commas and ends with a newline. |
| Report.RenderRow | src/main/java/com/smartcloudsolutions/tollingvision/TollingVisionSample.java:109-129 | The appended row is the ten columns in header order, joined by commas, with no quoting, plus a newline. |
| Report.RowCommas | src/main/java/com/smartcloudsolutions/tollingvision/TollingVisionSample.java:127-129 | The row holds nine separating commas plus those inside the columns, so a comma in a name or plate shifts later columns. |
| Report.OnNext | src/main/java/com/smartcloudsolutions/tollingvision/TollingVisionSample.java:91-149 | A row is produced iff the response carries an event result, and then it is that result's row. |
| Accounting.InitInv | src/main/java/com/smartcloudsolutions/tollingvision/TollingVisionSample.java:66-67 | The initial state (latch = number of groups, N permits, nothing reached) satisfies the invariant. |
| Accounting.StepInv | src/main/java/com/smartcloudsolutions/tollingvision/TollingVisionSample.java:73-165 | Every event that can happen keeps the invariant. |
| Accounting.Safety | src/main/java/com/smartcloudsolutions/tollingvision/TollingVisionSample.java:66-166 | In any trace of events, permits plus permits held equal N, and at most max(N,0) calls are held. The latch stays between 0 and the group count and is 0 iff every group is done, which is after the loop visited all groups. A null-request group is never in flight. |
| Accounting.LatchMeaning | src/main/java/com/smartcloudsolutions/tollingvision/TollingVisionSample.java:154-166 | Under the invariant, the latch is 0 exactly when every group is done, and only after the loop has passed every group. |
| Accounting.TerminalOnce | src/main/java/com/smartcloudsolutions/tollingvision/TollingVisionSample.java:151-163 | A terminal callback counts its group down once and releases once. The model admits no callback of a group after its terminal one (the StreamObserver contract). |
| Accounting.SequentialScheduleFinishes | src/main/java/com/smartcloudsolutions/tollingvision/TollingVisionSample.java:73-166 | With N ≥ 1, the schedule where each call completes before the next acquire visits every group, brings the latch to 0 and returns all N permits. |
| Accounting.NonPositiveCeilingBlocks | src/main/java/com/smartcloudsolutions/tollingvision/TollingVisionSample.java:66-74 | With N ≤ 0 and at least one group, no event can happen and the latch stays at the group count. |
| Scenarios.CrossingGroup | src/main/java/com/smartcloudsolutions/tollingvision/TollingVisionSample.java:190-196 | Under `crossing\d+`, the two crossing files form the single group "crossing1", in scan order. |
| Scenarios.CrossingRequest | src/main/java/com/smartcloudsolutions/tollingvision/TollingVisionSample.java:199-238 | That group yields one request with one front and one rear image and no overview image. |
| Scenarios.CrossingRow | src/main/java/com/smartcloudsolutions/tollingvision/TollingVisionSample.java:97-129 | A result carrying only node "N1" gives the row `,,,N1,,,,,,` and a newline. |
| Scenarios.StrayFileIgnored | src/main/java/com/smartcloudsolutions/tollingvision/TollingVisionSample.java:190-237 | A file with no group or role match is grouped as "ungrouped", and alone it yields no request. |

## Left out

- Command-line parsing, channel set-up (TLS or plaintext), gRPC transport and the `analyze` stub are left out. The response stream is an `EventResponse` value; the callbacks are events of `Accounting`.
- Real file-system access is left out. The directory tree is an `Entry` value, and `Files.readAllBytes` is a `Reader` oracle where `None` stands for an `IOException`.
- The regular-expression engine is left out. Patterns are abstract values, apart from the fixed extension pattern, whose language is modelled exactly.
- Threads, blocking and the unsynchronised `csvWriter.append` from callback threads are left out. Interleavings are traces of events, and rows are values rather than writes to a shared file.
- Logging, timing output, the partial-result printing of `onNext` and `printStackTrace` are left out: they have no effect on the CSV or the counters.
- The CSV header line is left out: it is one constant string written before the loop.
- The `IOException` of `csvWriter.append` inside `onNext` is left out, because the writer is not modelled.
- `HashMap` iteration order is left out. The order in which groups are dispatched is the order of `Config.empty` in `Accounting`.
- Files.ListFilesRecursively: `listFiles()` order is the order of a directory's children in the tree, whereas the real order depends on the operating system.
- Text.Lower: `toLowerCase` is modelled for ASCII letters only; other characters are unchanged.
- Report.FormatPlate: `%d` uses ASCII digits and a leading `-`. Locale-specific digits and the flags and widths of `String.format` are not modelled.
- Accounting.Safety: the bounds rely on gRPC's `StreamObserver` contract, which the model assumes rather than proves. The contract is that no callback arrives before `analyze`, at most one terminal callback (`onError` or `onCompleted`) arrives, and nothing arrives after it. `Step` admits `Next`, `Error` and `Completed` for a group only while it is in flight. The Java callbacks have no such guard, so a second terminal call would count down and release again.
- Accounting.TerminalOnce: "no further callback of a group is accepted" is the same assumed `StreamObserver` contract, not a check the program makes.
- Accounting.SequentialScheduleFinishes: proves termination only for the schedule where each call finishes before the next acquire, not for every fair interleaving.
