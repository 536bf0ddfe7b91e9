# Telegram scraper: post-processing, aggregation and export naming

This project models the deterministic core of a Telegram group scraper
that exports members and messages to CSV. It proves properties of that
model. The model covers four parts:

- **Messages** (`messages.dfy`):
  - the message record and its two derived fields, the sender name and the forward source;
  - the date window applied while history is scanned newest first, with `until` skipping and `since` stopping the scan;
  - `sort_messages`: a stable chronological sort, or grouping by sender with each group time-sorted;
  - `filter_by_keywords`: keeps messages whose text contains any keyword, ignoring case.
- **Members** (`members.dfy`): decoding a user's online status into the
  `last_seen` text, and the member record built from a participant.
- **Combined** (`combined.dfy`): `build_combined`. It merges member and
  message records into one row per user id. Each row carries:
  - the message count;
  - the first and last timestamps;
  - a username back-filled from the messages when the member has none;
  - a digest of the most recent texts: normalised, joined with `" | "` and truncated with an ellipsis.
- **Exporter** (`exporter.dfy`): the file-name sanitiser, the
  `{safe}_{kind}_{timestamp}.csv` file name (with `%Y%m%d_%H%M%S` timestamps)
  and the fixed header of each export.

`strings.dfy` holds the parts of Python's `str` the core relies on:
- truthiness, `lower`, `in` on strings and the string order;
- `split()` and `join`, `rstrip()`, and `str(int)`.

`wrappers.dfy` holds `Option`.

The pure parts of the source are Dafny functions. The loops of `sort_messages`, `filter_by_keywords`, the date
window and `build_combined` are methods with loop invariants. Each is proved
equal to a specification function, and the properties are proved about
those functions as lemmas. Dictionaries the source fills in a loop are a
`map` plus a `seq` of keys that records Python's insertion order.

Python's `sorted` is modelled as a stable insertion sort (`SortByTime`).
`StableSortUnique` shows that any arrangement that is sorted and keeps
the input order of equal timestamps is that result. So the choice of
algorithm does not matter.

## Model

| member | source | states |
|---|---|---|
| Strings.Lower | dist/zocoloco.app/Contents/Resources/lib/python3.12/scraper/messages.py:143-147 | `lower()` keeps the length and lower-cases each character |
| Strings.LowerIdempotent | dist/zocoloco.app/Contents/Resources/lib/python3.12/scraper/messages.py:143-147 | lower-casing an already lowered text changes nothing |
| Strings.ContainsEmpty | dist/zocoloco.app/Contents/Resources/lib/python3.12/scraper/messages.py:148 | the empty keyword is a substring of every text |
| Strings.LessEqReflexive | dist/zocoloco.app/Contents/Resources/lib/python3.12/scraper/messages.py:112 | the string order used as sort key is reflexive |
| Strings.LessEqTotal | dist/zocoloco.app/Contents/Resources/lib/python3.12/scraper/messages.py:112 | any two timestamps are comparable |
| Strings.LessEqTransitive | dist/zocoloco.app/Contents/Resources/lib/python3.12/scraper/messages.py:112 | the order is transitive |
| Strings.LessEqAntisymmetric | dist/zocoloco.app/Contents/Resources/lib/python3.12/scraper/messages.py:112 | timestamps that are each ≤ the other are equal |
| Strings.SplitWords | dist/zocoloco.app/Contents/Resources/scraper/combined.py:9 | `split()` yields non-empty words without whitespace; `SplitWordsWord`, `SplitWordsDetermined` and `SplitWordsKeepsText` show they are the maximal runs, in order |
| Strings.SplitWordsEmpty | dist/zocoloco.app/Contents/Resources/scraper/combined.py:9 | `split()` yields nothing exactly when the text is all whitespace |
| Strings.SplitWordsSpace | dist/zocoloco.app/Contents/Resources/scraper/combined.py:9 | a leading whitespace character produces no word |
| Strings.SplitWordsWord | dist/zocoloco.app/Contents/Resources/scraper/combined.py:9 | a leading maximal run of non-whitespace characters is the first word, and splitting goes on after it |
| Strings.SplitWordsDetermined | dist/zocoloco.app/Contents/Resources/scraper/combined.py:9 | any function obeying those two equations, and giving no words for "", is `split()` |
| Strings.SplitWordsKeepsText | dist/zocoloco.app/Contents/Resources/scraper/combined.py:9 | the words, concatenated, are exactly the non-whitespace characters of the text, in order |
| Strings.JoinWordsEmpty | dist/zocoloco.app/Contents/Resources/scraper/combined.py:9 | joining words gives "" exactly when there are none |
| Strings.JoinWordsSingleSpaced | dist/zocoloco.app/Contents/Resources/scraper/combined.py:9 | words joined by " " have no leading, trailing or doubled whitespace |
| Strings.SplitJoinWords | dist/zocoloco.app/Contents/Resources/scraper/combined.py:9 | splitting the joined words gives the words back |
| Strings.RStripSpec | dist/zocoloco.app/Contents/Resources/scraper/combined.py:96 | `rstrip()` returns a prefix that does not end in whitespace, and removes only whitespace |
| Strings.NatToString | dist/zocoloco.app/Contents/Resources/lib/python3.12/scraper/messages.py:31 | the decimal text of a natural number is a non-empty run of digits |
| Strings.NatToStringCanonical | dist/zocoloco.app/Contents/Resources/lib/python3.12/scraper/messages.py:31 | the text has no leading zero: its first digit is '0' only for 0, so with `NatToStringValue` it is the canonical decimal of `str(n)` |
| Strings.NatToStringValue | dist/zocoloco.app/Contents/Resources/lib/python3.12/scraper/messages.py:31 | the decimal digits denote the number |
| Strings.NatRoundTrip | dist/zocoloco.app/Contents/Resources/lib/python3.12/scraper/messages.py:31 | the decimal text of a natural number parses back to it |
| Strings.NegativeRoundTrip | dist/zocoloco.app/Contents/Resources/lib/python3.12/scraper/messages.py:31 | "-" followed by the digits of n parses back to -n |
| Strings.IntToStringRoundTrip | dist/zocoloco.app/Contents/Resources/lib/python3.12/scraper/messages.py:31 | `str(i)` parses back to `i` for every integer, so the id it shows is recoverable |
| Strings.IntToString | dist/zocoloco.app/Contents/Resources/lib/python3.12/scraper/messages.py:31 | `str(i)`: "-" before the digits of a negative number; `IntToStringRoundTrip` and `NatToStringCanonical` state its meaning |
| Strings.Truthy | dist/zocoloco.app/Contents/Resources/lib/python3.12/scraper/messages.py:17 | Python truthiness of an optional string: present and non-empty; the contracts of `SenderName`, `ToRecord` and `RowUsername` use it |
| Strings.IsSpace | dist/zocoloco.app/Contents/Resources/scraper/combined.py:9 | the characters `str.isspace()` accepts, which `split()` and `rstrip()` treat as whitespace |
| Strings.Join | dist/zocoloco.app/Contents/Resources/scraper/combined.py:94 | `sep.join(parts)`; `JoinWordsEmpty`, `JoinWordsSingleSpaced` and `SplitJoinWords` state its meaning for words |
| Strings.RStrip | dist/zocoloco.app/Contents/Resources/scraper/combined.py:96 | `rstrip()`; `RStripSpec` states what it removes |
| Strings.Contains | dist/zocoloco.app/Contents/Resources/lib/python3.12/scraper/messages.py:148 | `pattern in text`: the pattern occurs at some offset; `ContainsEmpty` is about it |
| Strings.LessEq | dist/zocoloco.app/Contents/Resources/lib/python3.12/scraper/messages.py:112 | Python's code-point order on strings, the sort key's order; the four `LessEq` lemmas show it is a total order |
| Messages.PresentPartsOfName | dist/zocoloco.app/Contents/Resources/lib/python3.12/scraper/messages.py:16-17 | joining the truthy name parts gives "first last", either one alone, or "" |
| Messages.PresentParts | dist/zocoloco.app/Contents/Resources/lib/python3.12/scraper/messages.py:17 | `[p for p in parts if p]`; `PresentPartsOfName` states the result for a first and last name |
| Messages.SenderName | dist/zocoloco.app/Contents/Resources/lib/python3.12/scraper/messages.py:11-18 | no sender gives None; a user gives the truthy parts of first and last name joined by one space; a chat gives its title (possibly None) |
| Messages.ForwardInfo | dist/zocoloco.app/Contents/Resources/lib/python3.12/scraper/messages.py:21-33 | None exactly without a header; the author name wins; otherwise a non-zero origin id is given as `str(id)`, which parses back to it; otherwise "forwarded", also for other header types |
| Messages.ForwardInfoExamples | tests/test_messages.py:31-38 | a named header gives its name, id 123 gives "123", and a header with neither gives "forwarded" |
| Messages.ToRecord | dist/zocoloco.app/Contents/Resources/lib/python3.12/scraper/messages.py:67-78 | ids and timestamp are copied; text is always present and "" when falsy; the reply id is the raw one exactly when there is a reply, else None; media_type is the media class name and has_media holds exactly when there is media; the username is the sender's, or None without a sender; sender name and forward source come from the two helpers |
| Messages.SenderUsername | dist/zocoloco.app/Contents/Resources/lib/python3.12/scraper/messages.py:69 | the sender's username, or None without a sender; `ToRecord` states it |
| Messages.TextOf | dist/zocoloco.app/Contents/Resources/lib/python3.12/scraper/messages.py:147 | the text of a record, "" when absent; `MatchesAny` uses it |
| Messages.StopIndex | dist/zocoloco.app/Contents/Resources/lib/python3.12/scraper/messages.py:60-63 | the break point is the first message that passes the `until` test and fails `since`, or the end |
| Messages.SelectWindow | dist/zocoloco.app/Contents/Resources/lib/python3.12/scraper/messages.py:56-63 | the continue/break scan keeps exactly the messages before the break point that are not too new, in order |
| Messages.NotTooNewBeforeStop | dist/zocoloco.app/Contents/Resources/lib/python3.12/scraper/messages.py:60-63 | before the break point, skipping too-new messages is the same as keeping the in-window ones |
| Messages.WindowWithinBounds | dist/zocoloco.app/Contents/Resources/lib/python3.12/scraper/messages.py:59-63 | the kept messages are the in-window messages before the break point, and every kept day lies within both inclusive bounds |
| Messages.WindowOfNewestFirst | dist/zocoloco.app/Contents/Resources/lib/python3.12/scraper/messages.py:56-63 | on newest-first history the scan keeps exactly the in-window messages of the whole input |
| Messages.Window | dist/zocoloco.app/Contents/Resources/lib/python3.12/scraper/messages.py:56-63 | specification of the scan: the messages before the break point that are not too new; its meaning is stated by `WindowWithinBounds` and `WindowOfNewestFirst` |
| Messages.WindowExample | tests/test_messages.py:125-137 | with days 3, 2, 1 and the window from 2 to 3, the first two are kept |
| Messages.InsertPermutes | dist/zocoloco.app/Contents/Resources/lib/python3.12/scraper/messages.py:112 | inserting adds exactly the one message |
| Messages.InsertSorted | dist/zocoloco.app/Contents/Resources/lib/python3.12/scraper/messages.py:112 | inserting into a sorted sequence keeps it sorted |
| Messages.InsertWithTimestamp | dist/zocoloco.app/Contents/Resources/lib/python3.12/scraper/messages.py:112 | the inserted message goes before the messages with its own timestamp |
| Messages.Insert | dist/zocoloco.app/Contents/Resources/lib/python3.12/scraper/messages.py:112 | one step of the stable sort; `InsertPermutes`, `InsertSorted` and `InsertWithTimestamp` state its meaning |
| Messages.SortByTimePermutes | dist/zocoloco.app/Contents/Resources/lib/python3.12/scraper/messages.py:112 | the chronological sort is a permutation of its input |
| Messages.SortByTimeSorted | dist/zocoloco.app/Contents/Resources/lib/python3.12/scraper/messages.py:112 | the result is non-decreasing by timestamp |
| Messages.SortByTimeStable | dist/zocoloco.app/Contents/Resources/lib/python3.12/scraper/messages.py:112 | messages with equal timestamps keep their input order |
| Messages.StableSortUnique | dist/zocoloco.app/Contents/Resources/lib/python3.12/scraper/messages.py:112 | any sorted arrangement that keeps the order of equal timestamps is the model's result |
| Messages.SortByTimeIdempotent | dist/zocoloco.app/Contents/Resources/lib/python3.12/scraper/messages.py:112 | sorting twice is sorting once |
| Messages.SortByTime | dist/zocoloco.app/Contents/Resources/lib/python3.12/scraper/messages.py:112 | specification of `sorted(..., key=timestamp)` as a stable insertion sort; `SortByTimePermutes`, `SortByTimeSorted`, `SortByTimeStable` and `StableSortUnique` state what it computes |
| Messages.SendersMembers | dist/zocoloco.app/Contents/Resources/lib/python3.12/scraper/messages.py:115-117 | the keys of `by_sender` are exactly the sender ids that occur |
| Messages.SendersDistinct | dist/zocoloco.app/Contents/Resources/lib/python3.12/scraper/messages.py:115-117 | each key appears once in the key order |
| Messages.FromSender | dist/zocoloco.app/Contents/Resources/lib/python3.12/scraper/messages.py:115-117 | the list `by_sender[k]` holds when the first loop ends; `FromSenderCount` states its contents |
| Messages.Senders | dist/zocoloco.app/Contents/Resources/lib/python3.12/scraper/messages.py:115-121 | the key order of `by_sender`; `SendersMembers` and `SendersDistinct` state its contents |
| Messages.Groups | dist/zocoloco.app/Contents/Resources/lib/python3.12/scraper/messages.py:120-123 | the flattening loop over a key order; `GroupsCount`, `GroupsContiguous` and `GroupsSendersOrder` state its meaning |
| Messages.BucketBySender | dist/zocoloco.app/Contents/Resources/lib/python3.12/scraper/messages.py:115-117 | the first loop's dictionary holds each sender's messages in input order, with keys in order of first occurrence |
| Messages.SortMessages | dist/zocoloco.app/Contents/Resources/lib/python3.12/scraper/messages.py:104-125 | chronological mode gives the stable sort; the default gives the groups in key order, each stably sorted |
| Messages.FromSenderCount | dist/zocoloco.app/Contents/Resources/lib/python3.12/scraper/messages.py:117 | a sender's bucket holds each of its messages as often as the input does, and no message of another sender |
| Messages.GroupBySenderPermutes | dist/zocoloco.app/Contents/Resources/lib/python3.12/scraper/messages.py:115-123 | grouped mode returns a permutation of the input (a None sender forms its own group) |
| Messages.GroupBySenderContiguous | dist/zocoloco.app/Contents/Resources/lib/python3.12/scraper/messages.py:115-123 | no two messages of one sender are separated by another sender's |
| Messages.GroupBySenderPerSender | dist/zocoloco.app/Contents/Resources/lib/python3.12/scraper/messages.py:122-123 | each sender's messages in the output are exactly its messages, stably sorted by time |
| Messages.GroupBySenderOrder | dist/zocoloco.app/Contents/Resources/lib/python3.12/scraper/messages.py:116-121 | groups appear in order of each sender's first message in the input |
| Messages.GroupBySender | dist/zocoloco.app/Contents/Resources/lib/python3.12/scraper/messages.py:114-125 | specification of the grouped mode; `GroupBySenderPermutes`, `GroupBySenderContiguous`, `GroupBySenderPerSender` and `GroupBySenderOrder` state what it computes |
| Messages.FilterByKeywords | dist/zocoloco.app/Contents/Resources/lib/python3.12/scraper/messages.py:128-151 | no keywords returns the input; otherwise the loop returns the matching subsequence |
| Messages.MatchingCount | dist/zocoloco.app/Contents/Resources/lib/python3.12/scraper/messages.py:145-149 | a matching message is kept as often as it occurs, and a non-matching one is dropped |
| Messages.MatchingMembers | dist/zocoloco.app/Contents/Resources/lib/python3.12/scraper/messages.py:146-149 | only input messages that match are kept |
| Messages.MatchingAppend | dist/zocoloco.app/Contents/Resources/lib/python3.12/scraper/messages.py:146-149 | the filter distributes over concatenation, so input order is kept |
| Messages.EmptyKeywordMatches | dist/zocoloco.app/Contents/Resources/lib/python3.12/scraper/messages.py:148 | a keyword list containing "" matches every message |
| Messages.MatchingEmptyKeyword | dist/zocoloco.app/Contents/Resources/lib/python3.12/scraper/messages.py:148 | a keyword list containing "" keeps every message |
| Messages.MatchingOfMatching | dist/zocoloco.app/Contents/Resources/lib/python3.12/scraper/messages.py:146-149 | a sequence of matching messages passes through unchanged |
| Messages.KeywordFilterIdempotent | dist/zocoloco.app/Contents/Resources/lib/python3.12/scraper/messages.py:139-151 | filtering twice with the same keywords is filtering once |
| Messages.KeywordFilterCaseInsensitive | dist/zocoloco.app/Contents/Resources/lib/python3.12/scraper/messages.py:143 | lower-casing the keywords first changes nothing |
| Messages.MatchesAny | dist/zocoloco.app/Contents/Resources/lib/python3.12/scraper/messages.py:147-148 | some lowered keyword occurs in the lowered text ("" for a falsy text); `EmptyKeywordMatches` and `KeywordFilterCaseInsensitive` are about it |
| Messages.Matching | dist/zocoloco.app/Contents/Resources/lib/python3.12/scraper/messages.py:145-149 | specification of the filtering loop; `MatchingCount`, `MatchingMembers` and `MatchingAppend` state what it keeps |
| Messages.KeywordFilter | dist/zocoloco.app/Contents/Resources/lib/python3.12/scraper/messages.py:139-151 | the whole function: the input for no keywords, otherwise `Matching`; `KeywordFilterIdempotent` is about it |
| Members.LastSeen | dist/zocoloco/_internal/scraper/members.py:11-28 | None for no status; "online", the ISO time or "offline", "recently", "last_week", "last_month"; "hidden" for every other kind |
| Members.LastSeenDecodes | dist/zocoloco/_internal/scraper/members.py:11-28 | the kind of status can be read back from the `last_seen` text |
| Members.KindOf | dist/zocoloco/_internal/scraper/members.py:17-28 | which of the tested status classes a status is, "hidden" for any other |
| Members.ClassifyLastSeen | dist/zocoloco/_internal/scraper/members.py:15-28 | reads a `last_seen` cell back into its status kind, the inverse `LastSeenDecodes` proves |
| Members.ToMember | dist/zocoloco/_internal/scraper/members.py:72-82 | id, names, phone and bot flag are copied; last_seen is the decoded status; is_premium is False when the attribute is missing and its value otherwise; bio is the fetched one |
| Combined.NormalizeTextSpec | dist/zocoloco.app/Contents/Resources/scraper/combined.py:6-9 | the result is single-spaced; it is "" exactly for falsy or all-whitespace text; it has the same words as the text |
| Combined.NormalizeTextIdempotent | dist/zocoloco.app/Contents/Resources/scraper/combined.py:6-9 | normalising twice changes nothing |
| Combined.NormalizeText | dist/zocoloco.app/Contents/Resources/scraper/combined.py:6-9 | specification of `_normalize_text`; `NormalizeTextSpec` and `NormalizeTextIdempotent` state what it computes |
| Combined.SliceBound | dist/zocoloco.app/Contents/Resources/scraper/combined.py:90 | a Python slice bound counts from the end when negative and clamps when out of range |
| Combined.RecentWindowSize | dist/zocoloco.app/Contents/Resources/scraper/combined.py:90 | the last `recent_limit` messages (all if fewer) for a positive limit; all of them for 0; Python slicing for negative limits |
| Combined.RecentWindow | dist/zocoloco.app/Contents/Resources/scraper/combined.py:90 | `msgs_sorted[-recent_limit:]`; `RecentWindowSize` states its length and position |
| Combined.RecentTextsShape | dist/zocoloco.app/Contents/Resources/scraper/combined.py:89-93 | at most one text per message, each non-empty and single-spaced |
| Combined.RecentTextsNewestFirst | dist/zocoloco.app/Contents/Resources/scraper/combined.py:90-93 | a later message's text comes before those of all earlier ones |
| Combined.RecentTextsEmpty | dist/zocoloco.app/Contents/Resources/scraper/combined.py:91-93 | no text survives exactly when every message normalises to "" |
| Combined.RecentTexts | dist/zocoloco.app/Contents/Resources/scraper/combined.py:89-93 | specification of the recent-texts loop; `RecentTextsShape`, `RecentTextsNewestFirst` and `RecentTextsEmpty` state what it keeps |
| Combined.KeptText | dist/zocoloco.app/Contents/Resources/scraper/combined.py:91-93 | the normalised text of one message, kept only when non-empty; `RecentTextsNewestFirst` uses it |
| Combined.TruncateSpec | dist/zocoloco.app/Contents/Resources/scraper/combined.py:95-96 | a blob that fits is kept; a longer one is a prefix of the cut without trailing whitespace, followed by "…", and only whitespace is dropped; at most `max_recent_chars + 1` long |
| Combined.Truncate | dist/zocoloco.app/Contents/Resources/scraper/combined.py:95-96 | specification of the truncation; `TruncateSpec` states what it keeps |
| Combined.Digest | dist/zocoloco.app/Contents/Resources/scraper/combined.py:89-96 | the recent texts of the window, joined with the bar separator and truncated; `RowDigest` states its bound |
| Combined.LatestUsernameIsLatest | dist/zocoloco.app/Contents/Resources/scraper/combined.py:82-86 | a username is found exactly when some message has a truthy one, and it is that of the last such message |
| Combined.LatestUsername | dist/zocoloco.app/Contents/Resources/scraper/combined.py:82-86 | the reversed scan for a truthy username; `LatestUsernameIsLatest` states which one it finds |
| Combined.Backfill | dist/zocoloco.app/Contents/Resources/scraper/combined.py:81-86 | the entry's username, filled from `LatestUsername` when falsy; `RowUsername` states the result |
| Combined.LastMemberIsLast | dist/zocoloco.app/Contents/Resources/scraper/combined.py:27-31 | a member record is used exactly when one has the id, and it is the last such record |
| Combined.LastMember | dist/zocoloco.app/Contents/Resources/scraper/combined.py:27-31 | the record whose entry survives the overwrites of the first loop; `LastMemberIsLast` states which one |
| Combined.SeedRow | dist/zocoloco.app/Contents/Resources/scraper/combined.py:31-45 | the entry seeded from a member record; `RowKeepsMemberFields` states its fields |
| Combined.EmptyRow | dist/zocoloco.app/Contents/Resources/scraper/combined.py:56-71 | the base entry of a sender missing from the members; `RowMessageCount` states its defaults |
| Combined.BaseRow | dist/zocoloco.app/Contents/Resources/scraper/combined.py:27-71 | an id's entry before the third loop: seeded from its last member record, or the empty entry |
| Combined.HasSenderInSenders | dist/zocoloco.app/Contents/Resources/scraper/combined.py:48-52 | an id has messages exactly when it is a sender key and its list is non-empty |
| Combined.SeedMembers | dist/zocoloco.app/Contents/Resources/scraper/combined.py:27-45 | the first loop seeds one entry per member id (None ids dropped, last record wins) and lists each id once |
| Combined.GroupedSkip | dist/zocoloco.app/Contents/Resources/scraper/combined.py:49-51 | a message without a sender leaves `messages_by_user` unchanged |
| Combined.GroupedAppend | dist/zocoloco.app/Contents/Resources/scraper/combined.py:52 | `setdefault(...).append(msg)` adds the message to its sender's list, and a new key at the end of the key order |
| Combined.AddMessage | dist/zocoloco.app/Contents/Resources/scraper/combined.py:49-52 | one pass of the grouping loop: a message without a sender is skipped, any other is appended to its sender's list; it keeps the grouping invariant |
| Combined.GroupMessages | dist/zocoloco.app/Contents/Resources/scraper/combined.py:47-52 | the second loop maps each sender id to its messages in input order and lists each id once |
| Combined.InsertId | dist/zocoloco.app/Contents/Resources/scraper/combined.py:100 | inserting a new id into an ascending sequence keeps it ascending and adds exactly that id |
| Combined.SortIds | dist/zocoloco.app/Contents/Resources/scraper/combined.py:100 | the ids, distinct, come out strictly ascending with the same elements |
| Combined.BackfillUsername | dist/zocoloco.app/Contents/Resources/scraper/combined.py:81-86 | the reversed scan with `break` returns the latest truthy username, or the current one |
| Combined.RecentDigest | dist/zocoloco.app/Contents/Resources/scraper/combined.py:89-97 | the loop over the newest `recent_limit` messages, newest first, then the join and the truncation, yield the digest whose properties `RowDigest` and `TruncateSpec` state |
| Combined.SummarizeUser | dist/zocoloco.app/Contents/Resources/scraper/combined.py:73-97 | the in-place field updates of one entry give the summarised row |
| Combined.SenderRow | dist/zocoloco.app/Contents/Resources/scraper/combined.py:56-97 | a sender's entry, summarised over its messages, is the expected row |
| Combined.AddSender | dist/zocoloco.app/Contents/Resources/scraper/combined.py:54-97 | one pass of the third loop creates the entry if missing, summarises it, and keeps every other entry |
| Combined.SummarizeSenders | dist/zocoloco.app/Contents/Resources/scraper/combined.py:54-97 | after the third loop every sender holds its final row and every other member its seeded row |
| Combined.FillRows | dist/zocoloco.app/Contents/Resources/scraper/combined.py:25-97 | `by_user` has exactly the member ids and the sender ids, each with its expected row |
| Combined.BuildCombined | dist/zocoloco.app/Contents/Resources/scraper/combined.py:12-100 | rows are in strictly ascending id order, there is one row for each member or sender id and no other, and each is the expected row |
| Combined.ExpectedRowId | dist/zocoloco.app/Contents/Resources/scraper/combined.py:31-32 | each row carries its own id |
| Combined.RowMessageCount | dist/zocoloco.app/Contents/Resources/scraper/combined.py:41-75 | the count is the number of the user's messages; without messages the row keeps count 0, no timestamps and "" |
| Combined.SortedExtremes | dist/zocoloco.app/Contents/Resources/scraper/combined.py:73-78 | the first and last sorted messages carry the least and the greatest timestamps of all |
| Combined.RowFirstLast | dist/zocoloco.app/Contents/Resources/scraper/combined.py:73-78 | first/last are timestamps of the user's messages, and every message falls between them |
| Combined.RowUsername | dist/zocoloco.app/Contents/Resources/scraper/combined.py:80-86 | a truthy member username is kept; otherwise the latest truthy sender username, or unchanged if none |
| Combined.RowKeepsMemberFields | dist/zocoloco.app/Contents/Resources/scraper/combined.py:31-40 | the last member record's fields pass into the row unchanged |
| Combined.RowDigest | dist/zocoloco.app/Contents/Resources/scraper/combined.py:94-97 | the digest is at most one character over the limit, and is the joined texts when they fit |
| Combined.Summarize | dist/zocoloco.app/Contents/Resources/scraper/combined.py:73-97 | the updated entry of one sender; `RowMessageCount`, `RowFirstLast`, `RowUsername` and `RowDigest` state its fields |
| Combined.ExpectedRow | dist/zocoloco.app/Contents/Resources/scraper/combined.py:27-97 | the final row of an id: the seeded member row or the empty row, summarised over the id's messages; the `Row*` lemmas state its fields |
| Exporter.ReplaceUnsafe | dist/zocoloco/_internal/scraper/exporter.py:12 | characters other than word characters and "-" become "_", the others stay, and the length is kept |
| Exporter.IsWordChar | dist/zocoloco/_internal/scraper/exporter.py:12 | `\w`: ASCII letters, digits and "_" |
| Exporter.IsSafe | dist/zocoloco/_internal/scraper/exporter.py:12 | the characters `[\w\-]` lets through |
| Exporter.CollapseUnderscoresProps | dist/zocoloco/_internal/scraper/exporter.py:14 | no two consecutive underscores remain; both ends and the characters used are kept |
| Exporter.CollapseOfNoDouble | dist/zocoloco/_internal/scraper/exporter.py:14 | a text without doubled underscores is left as it is |
| Exporter.CollapseKeepsOther | dist/zocoloco/_internal/scraper/exporter.py:14 | a character other than "_" passes through the collapse |
| Exporter.CollapseRun | dist/zocoloco/_internal/scraper/exporter.py:14 | a maximal run of one or more underscores becomes exactly one |
| Exporter.CollapseDetermined | dist/zocoloco/_internal/scraper/exporter.py:14 | any function obeying those two equations, and mapping "" to "", is the collapse |
| Exporter.CollapseUnderscores | dist/zocoloco/_internal/scraper/exporter.py:14 | specification of `re.sub(r'_+', '_', ...)`; `CollapseKeepsOther`, `CollapseRun` and `CollapseDetermined` characterise it |
| Exporter.StripLeadingProps | dist/zocoloco/_internal/scraper/exporter.py:16 | stripping from the left removes only leading underscores, and the result does not start with one |
| Exporter.StripTrailingProps | dist/zocoloco/_internal/scraper/exporter.py:16 | stripping from the right removes only trailing underscores, and the result does not end with one |
| Exporter.StripLeading | dist/zocoloco/_internal/scraper/exporter.py:16 | the left half of `strip('_')`; `StripLeadingProps` states what it removes |
| Exporter.StripTrailing | dist/zocoloco/_internal/scraper/exporter.py:16 | the right half of `strip('_')`; `StripTrailingProps` states what it removes |
| Exporter.StripUnderscores | dist/zocoloco/_internal/scraper/exporter.py:16 | specification of `strip('_')`; `StripLeadingProps`, `StripTrailingProps` and `StrippedIsSafe` state what it removes |
| Exporter.StrippedIsSafe | dist/zocoloco/_internal/scraper/exporter.py:16 | stripping a safe run-free text leaves it safe, with no underscore at either end |
| Exporter.SanitizeFilename | dist/zocoloco/_internal/scraper/exporter.py:9-16 | the result has only word characters and "-", no doubled underscore, and no underscore at either end |
| Exporter.SanitizeSafeName | dist/zocoloco/_internal/scraper/exporter.py:9-16 | a name already of that form is returned unchanged |
| Exporter.SanitizeIdempotent | dist/zocoloco/_internal/scraper/exporter.py:9-16 | sanitising twice is sanitising once |
| Exporter.SanitizePlainName | dist/zocoloco/_internal/scraper/exporter.py:9-16 | a name of letters, digits and "-" only is unchanged |
| Exporter.SanitizeKeepsContent | dist/zocoloco/_internal/scraper/exporter.py:9-16 | apart from underscores the result holds exactly the letters, digits and hyphens of the name, in order |
| Exporter.SanitizeExampleGroup | tests/test_exporter.py:14 | "My Group!" becomes "My_Group" |
| Exporter.SanitizeExampleSpaces | tests/test_exporter.py:15 | "  Spaces  " becomes "Spaces" |
| Exporter.SanitizeExampleDoubled | tests/test_exporter.py:16 | "Weird__Name" becomes "Weird_Name" |
| Exporter.FormatTimestamp | dist/zocoloco/_internal/scraper/exporter.py:28 | `%Y%m%d_%H%M%S` gives eight digits, "_", six digits |
| Exporter.TimestampRoundTrip | dist/zocoloco/_internal/scraper/exporter.py:28 | the timestamp text determines the moment, to the second |
| Exporter.TimestampExample | tests/test_exporter.py:7-11 | 2024-01-02 03:04:05 is written "20240102_030405" |
| Exporter.SplitKindOf | dist/zocoloco/_internal/scraper/exporter.py:30 | `{safe}_{kind}` splits back into the safe name and the kind |
| Exporter.ExportFilenameRoundTrip | dist/zocoloco/_internal/scraper/exporter.py:28-30 | the file name determines the sanitised group name, the kind and the timestamp |
| Exporter.ExportFilenameExample | tests/test_exporter.py:36-37 | "My Group!" exports are named "My_Group_{kind}_20240102_030405.csv" |
| Exporter.ExportFilename | dist/zocoloco/_internal/scraper/exporter.py:28-30 | the `{safe}_{kind}_{timestamp}.csv` name; `ExportFilenameRoundTrip` shows it determines its parts |
| Exporter.KindName | dist/zocoloco/_internal/scraper/exporter.py:30 | the kind word of each file name: "members" here, "messages" at line 57, "combined" at line 85; `SplitKindOf` shows it is recoverable |
| Exporter.FieldnamesShape | dist/zocoloco/_internal/scraper/exporter.py:33-93 | 9, 10 and 13 columns; no kind repeats a column; every member column is also a combined column |
| Exporter.Fieldnames | dist/zocoloco/_internal/scraper/exporter.py:33-93 | the three header lists, column for column; `FieldnamesShape` states their shape |

## Left out

- Network, async iteration, `get_sender`, random sleeps, flood-wait and
  permission errors: the scraper's loops over the Telegram client are not
  modelled. The message record and the date window are taken out of
  `scrape_messages` as a function and a method. The date window works on a
  list of (day, value) pairs, with days as integers.
- The member-scraping loop, and the bio request `_get_user_bio`. The bio is a parameter of
  `ToMember`.
- CSV writing, `mkdir` and the clock. The export timestamp is a parameter (a
  date-time of six fields). The header is modelled as each export's fieldname list.
- The GUI, the CLI and the client-login code are not part of this model.
- Strings.Lower: ASCII only, because Unicode case mapping is a library table.
- Exporter.IsWordChar: `\w` is ASCII letters, digits and `_`, for the same reason.
- Members.LastSeenDecodes: `isoformat()` is left opaque. The model assumes only that ISO text starts with a digit.
- Messages.ForwardInfo: `from_id` is an integer whose text is `str(int)`. In the client library it is a peer object with its own `str`.
- Exporter.ValidDateTime: years are limited to 1000..9999, the range in which `%Y` gives four digits.
- Messages.Message: `timestamp` is always present. A record without one (a
  `KeyError` in `sort_messages`) is not modelled. Because of that,
  `m.get("timestamp") or ""` in `build_combined` is the timestamp itself.
- A `None` members or messages list in `build_combined` is the empty sequence.
- Combined.FillRows: `by_user` entries are updated as values in a map. Python's aliasing of the
  entry dictionary between `by_user` and `entry` is not modelled. It is not
  observable here.
