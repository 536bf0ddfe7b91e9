/**
 * The combined per-user export (scraper/combined.py): member records and
 * message records merged into one row per user id, with message count,
 * first and last timestamps, a back-filled username and a digest of the
 * most recent message texts.
 */
module Combined {
  import opened Wrappers
  import opened Strings
  import opened Messages
  import opened Members

  /** One row of the combined export. */
  datatype Row = Row(
    userId: int,
    username: Option<string>,
    firstName: Option<string>,
    lastName: Option<string>,
    phone: Option<string>,
    bio: Option<string>,
    lastSeen: Option<string>,
    isPremium: Option<bool>,
    isBot: Option<bool>,
    messageCount: nat,
    firstMessageAt: Option<string>,
    lastMessageAt: Option<string>,
    recentMessages: string)

  // =====================================================================
  // `_normalize_text`
  // =====================================================================

  /** Falsy text gives ""; otherwise the whitespace-separated words joined by single spaces. */
  function NormalizeText(text: Option<string>): string {
    if !Truthy(text) then "" else Join(SplitWords(text.value), " ")
  }

  /**
   * The normalised text is single-spaced, empty exactly for falsy or
   * all-whitespace text, and has the same words as the text.
   */
  lemma NormalizeTextSpec(text: Option<string>)
    ensures var r := NormalizeText(text);
      && SingleSpaced(r)
      && (r == "" <==> !Truthy(text) || forall i :: 0 <= i < |text.value| ==> IsSpace(text.value[i]))
      && (Truthy(text) ==> SplitWords(r) == SplitWords(text.value))
  {
    if Truthy(text) {
      var words := SplitWords(text.value);
      JoinWordsSingleSpaced(words);
      JoinWordsEmpty(words);
      SplitWordsEmpty(text.value);
      SplitJoinWords(words);
    }
  }

  /** Normalising twice changes nothing. */
  lemma NormalizeTextIdempotent(text: Option<string>)
    ensures NormalizeText(Some(NormalizeText(text))) == NormalizeText(text)
  {
    NormalizeTextSpec(text);
    var r := NormalizeText(text);
    if r != "" {
      SplitJoinWords(SplitWords(r));
    }
  }

  // =====================================================================
  // Python slicing
  // =====================================================================

  /** Where a slice bound `i` lands in a sequence of length `n` (negative counts from the end, out of range clamps). */
  function SliceBound(n: nat, i: int): (b: nat)
    ensures b <= n
    ensures 0 <= i <= n ==> b == i
    ensures -(n as int) <= i < 0 ==> b == n + i
    ensures i > n ==> b == n
    ensures i < -(n as int) ==> b == 0
  {
    if i < 0 then (if n + i < 0 then 0 else n + i)
    else if i > n then n else i
  }

  /** `msgs_sorted[-recent_limit:]`. */
  function RecentWindow(sorted: seq<Message>, recentLimit: int): seq<Message> {
    sorted[SliceBound(|sorted|, -recentLimit)..]
  }

  /** A positive limit keeps the last `recent_limit` messages, or all when there are fewer; 0 keeps all of them. */
  lemma RecentWindowSize(sorted: seq<Message>, recentLimit: int)
    ensures recentLimit >= 0 ==> RecentWindow(sorted, recentLimit) == sorted[|sorted| - |RecentWindow(sorted, recentLimit)|..]
    ensures recentLimit >= 1 ==> |RecentWindow(sorted, recentLimit)| == if recentLimit < |sorted| then recentLimit else |sorted|
    ensures recentLimit == 0 ==> RecentWindow(sorted, recentLimit) == sorted
    ensures recentLimit < 0 ==> RecentWindow(sorted, recentLimit) == sorted[if -recentLimit < |sorted| then -recentLimit else |sorted|..]
  {
  }

  // =====================================================================
  // The recent-messages digest
  // =====================================================================

  /** The normalised non-empty texts of `window`, most recent (last) first. */
  function RecentTexts(window: seq<Message>): seq<string> {
    if window == [] then [] else RecentTexts(window[1..]) + KeptText(window[0])
  }

  /** What one message adds to the digest: its normalised text, unless that is empty. */
  function KeptText(m: Message): seq<string> {
    var t := NormalizeText(m.text);
    if t != "" then [t] else []
  }

  /** At most one text per message, each non-empty and single-spaced. */
  lemma {:induction false} RecentTextsShape(window: seq<Message>)
    ensures var r := RecentTexts(window);
      |r| <= |window| && forall k :: 0 <= k < |r| ==> r[k] != "" && SingleSpaced(r[k])
  {
    if window != [] {
      RecentTextsShape(window[1..]);
      NormalizeTextSpec(window[0].text);
    }
  }

  /** A later message's text comes before every earlier one's. */
  lemma {:induction false} RecentTextsNewestFirst(window: seq<Message>, m: Message)
    ensures RecentTexts(window + [m]) == KeptText(m) + RecentTexts(window)
  {
    var w := window + [m];
    if window == [] {
      assert w[1..] == [] && w[0] == m;
    } else {
      calc {
        RecentTexts(w);
        == { assert w[1..] == window[1..] + [m] && w[0] == window[0]; }
        RecentTexts(window[1..] + [m]) + KeptText(window[0]);
        == { RecentTextsNewestFirst(window[1..], m); }
        (KeptText(m) + RecentTexts(window[1..])) + KeptText(window[0]);
        ==
        KeptText(m) + (RecentTexts(window[1..]) + KeptText(window[0]));
      }
    }
  }

  /** No text survives exactly when every message lacks text or has only whitespace. */
  lemma {:induction false} RecentTextsEmpty(window: seq<Message>)
    ensures RecentTexts(window) == [] <==> forall k :: 0 <= k < |window| ==> NormalizeText(window[k].text) == ""
  {
    if window != [] {
      var rest := window[1..];
      RecentTextsEmpty(rest);
      assert RecentTexts(window) == RecentTexts(rest) + KeptText(window[0]);
      if forall k :: 0 <= k < |window| ==> NormalizeText(window[k].text) == "" {
        forall k | 0 <= k < |rest| ensures NormalizeText(rest[k].text) == "" {
          assert rest[k] == window[k + 1];
        }
      }
      if RecentTexts(window) == [] {
        forall k | 0 <= k < |window| ensures NormalizeText(window[k].text) == "" {
          if k > 0 {
            assert window[k] == rest[k - 1];
          }
        }
      }
    }
  }

  /** The cut `recent_blob[:max_recent_chars].rstrip() + "…"` when the blob is too long. */
  function Truncate(blob: string, maxChars: int): string {
    if |blob| > maxChars then RStrip(blob[..SliceBound(|blob|, maxChars)]) + "\U{2026}" else blob
  }

  /**
   * A blob that fits is kept; a longer one becomes a prefix no longer than
   * the cut, without trailing whitespace, followed by the ellipsis, and only
   * whitespace is dropped between that prefix and the cut.
   */
  lemma TruncateSpec(blob: string, maxChars: int)
    ensures var r := Truncate(blob, maxChars);
      && (|blob| <= maxChars ==> r == blob)
      && (|blob| > maxChars ==>
            && |r| >= 1 && r[|r| - 1] == '\U{2026}'
            && |r| - 1 <= SliceBound(|blob|, maxChars)
            && r[..|r| - 1] == blob[..|r| - 1]
            && (|r| > 1 ==> !IsSpace(r[|r| - 2]))
            && (forall i :: |r| - 1 <= i < SliceBound(|blob|, maxChars) ==> IsSpace(blob[i])))
      && (maxChars >= 0 ==> |r| <= maxChars + 1)
  {
    if |blob| > maxChars {
      var cut := blob[..SliceBound(|blob|, maxChars)];
      var kept := RStrip(cut);
      RStripSpec(cut);
      var r := kept + "\U{2026}";
      assert r[..|kept|] == kept;
      assert forall i :: |kept| <= i < |cut| ==> cut[i] == blob[i];
    }
  }

  /** `recent_messages` for one sender, from the time-sorted messages. */
  function Digest(sorted: seq<Message>, recentLimit: int, maxChars: int): string {
    Truncate(Join(RecentTexts(RecentWindow(sorted, recentLimit)), " | "), maxChars)
  }

  // =====================================================================
  // Username back-fill
  // =====================================================================

  /** The `sender_username` of the last message that has a non-empty one. */
  function LatestUsername(sorted: seq<Message>): Option<string> {
    if sorted == [] then None
    else if Truthy(sorted[|sorted| - 1].senderUsername) then sorted[|sorted| - 1].senderUsername
    else LatestUsername(sorted[..|sorted| - 1])
  }

  lemma LatestUsernameIsLatest(sorted: seq<Message>)
    ensures LatestUsername(sorted).Some? <==> exists i :: 0 <= i < |sorted| && Truthy(sorted[i].senderUsername)
    ensures LatestUsername(sorted).Some? ==>
      exists i :: 0 <= i < |sorted| && sorted[i].senderUsername == LatestUsername(sorted) && Truthy(sorted[i].senderUsername)
        && forall j :: i < j < |sorted| ==> !Truthy(sorted[j].senderUsername)
  {
    LatestUsernameFound(sorted);
    if LatestUsername(sorted).Some? {
      LatestUsernameWitness(sorted);
    }
  }

  lemma {:induction false} LatestUsernameFound(sorted: seq<Message>)
    ensures LatestUsername(sorted).Some? <==> exists i :: 0 <= i < |sorted| && Truthy(sorted[i].senderUsername)
  {
    if sorted != [] {
      var p := sorted[..|sorted| - 1];
      LatestUsernameFound(p);
      if !Truthy(sorted[|sorted| - 1].senderUsername) {
        if exists i :: 0 <= i < |sorted| && Truthy(sorted[i].senderUsername) {
          var i :| 0 <= i < |sorted| && Truthy(sorted[i].senderUsername);
          assert p[i] == sorted[i];
        }
        if exists i :: 0 <= i < |p| && Truthy(p[i].senderUsername) {
          var i :| 0 <= i < |p| && Truthy(p[i].senderUsername);
          assert sorted[i] == p[i];
        }
      }
    }
  }

  lemma {:induction false} LatestUsernameWitness(sorted: seq<Message>)
    requires LatestUsername(sorted).Some?
    ensures exists i ::
      && 0 <= i < |sorted| && sorted[i].senderUsername == LatestUsername(sorted) && Truthy(sorted[i].senderUsername)
      && forall j :: i < j < |sorted| ==> !Truthy(sorted[j].senderUsername)
  {
    var n := |sorted| - 1;
    if !Truthy(sorted[n].senderUsername) {
      var p := sorted[..n];
      LatestUsernameWitness(p);
      var i :| 0 <= i < |p| && p[i].senderUsername == LatestUsername(p) && Truthy(p[i].senderUsername)
        && forall j :: i < j < |p| ==> !Truthy(p[j].senderUsername);
      assert sorted[i] == p[i];
      forall j | i < j < |sorted| ensures !Truthy(sorted[j].senderUsername) {
        if j < n {
          assert sorted[j] == p[j];
        }
      }
    }
  }

  /** The username after the back-fill loop: the latest one found, or the current one when none is. */
  function Backfill(current: Option<string>, sorted: seq<Message>): Option<string> {
    match LatestUsername(sorted)
    case Some(name) => Some(name)
    case None => current
  }

  // =====================================================================
  // One user's row
  // =====================================================================

  /** The row seeded from a member record. */
  function SeedRow(m: Member, u: int): Row {
    Row(u, m.username, m.firstName, m.lastName, m.phone, m.bio, m.lastSeen, m.isPremium, m.isBot, 0, None, None, "")
  }

  /** The row created for a sender that no member record describes. */
  function EmptyRow(u: int): Row {
    Row(u, None, None, None, None, None, None, None, None, 0, None, None, "")
  }

  /** The last member record with user id `u`: later records overwrite earlier ones in `by_user`. */
  function LastMember(members: seq<Member>, u: int): Option<Member> {
    if members == [] then None
    else if members[|members| - 1].userId == Some(u) then Some(members[|members| - 1])
    else LastMember(members[..|members| - 1], u)
  }

  predicate HasMember(members: seq<Member>, u: int) {
    exists i :: 0 <= i < |members| && members[i].userId == Some(u)
  }

  predicate HasSender(messages: seq<Message>, u: int) {
    exists i :: 0 <= i < |messages| && messages[i].senderId == Some(u)
  }

  lemma LastMemberIsLast(members: seq<Member>, u: int)
    ensures LastMember(members, u).Some? <==> HasMember(members, u)
    ensures LastMember(members, u).Some? ==>
      exists i :: 0 <= i < |members| && members[i] == LastMember(members, u).value && members[i].userId == Some(u)
        && forall j :: i < j < |members| ==> members[j].userId != Some(u)
  {
    LastMemberFound(members, u);
    if LastMember(members, u).Some? {
      LastMemberWitness(members, u);
    }
  }

  lemma {:induction false} LastMemberFound(members: seq<Member>, u: int)
    ensures LastMember(members, u).Some? <==> HasMember(members, u)
  {
    if members != [] {
      var p := members[..|members| - 1];
      LastMemberFound(p, u);
      if HasMember(members, u) && members[|members| - 1].userId != Some(u) {
        var i :| 0 <= i < |members| && members[i].userId == Some(u);
        assert p[i] == members[i];
      }
      if HasMember(p, u) {
        var i :| 0 <= i < |p| && p[i].userId == Some(u);
        assert members[i] == p[i];
      }
    }
  }

  lemma {:induction false} LastMemberWitness(members: seq<Member>, u: int)
    requires LastMember(members, u).Some?
    ensures exists i ::
      && 0 <= i < |members| && members[i] == LastMember(members, u).value && members[i].userId == Some(u)
      && forall j :: i < j < |members| ==> members[j].userId != Some(u)
  {
    var n := |members| - 1;
    if members[n].userId != Some(u) {
      var p := members[..n];
      LastMemberWitness(p, u);
      var i :| 0 <= i < |p| && p[i] == LastMember(p, u).value && p[i].userId == Some(u)
        && forall j :: i < j < |p| ==> p[j].userId != Some(u);
      assert members[i] == p[i];
      forall j | i < j < |members| ensures members[j].userId != Some(u) {
        if j < n {
          assert members[j] == p[j];
        }
      }
    }
  }

  lemma HasSenderInSenders(messages: seq<Message>, u: int)
    ensures HasSender(messages, u) <==> Some(u) in Senders(messages)
    ensures HasSender(messages, u) <==> FromSender(messages, Some(u)) != []
  {
    SendersMembers(messages);
    FromSenderNonEmpty(messages, Some(u));
  }

  /** The entry of `by_user` before any message is looked at. */
  function BaseRow(members: seq<Member>, u: int): Row {
    match LastMember(members, u)
    case Some(m) => SeedRow(m, u)
    case None => EmptyRow(u)
  }

  /** What the per-sender loop body makes of `entry` given that sender's messages. */
  function Summarize(entry: Row, msgs: seq<Message>, recentLimit: int, maxChars: int): Row {
    var sorted := SortByTime(msgs);
    entry.(
      messageCount := |sorted|,
      firstMessageAt := if sorted != [] then Some(sorted[0].timestamp) else entry.firstMessageAt,
      lastMessageAt := if sorted != [] then Some(sorted[|sorted| - 1].timestamp) else entry.lastMessageAt,
      username := if Truthy(entry.username) then entry.username else Backfill(entry.username, sorted),
      recentMessages := Digest(sorted, recentLimit, maxChars))
  }

  /** The row `build_combined` produces for user id `u`. */
  function ExpectedRow(members: seq<Member>, messages: seq<Message>, u: int, recentLimit: int, maxChars: int): Row {
    var msgs := FromSender(messages, Some(u));
    if msgs == [] then BaseRow(members, u) else Summarize(BaseRow(members, u), msgs, recentLimit, maxChars)
  }

  predicate StrictlyIncreasing(s: seq<int>) {
    forall i, j :: 0 <= i < j < |s| ==> s[i] < s[j]
  }

  predicate IdsAscending(rows: seq<Row>) {
    forall i, j :: 0 <= i < j < |rows| ==> rows[i].userId < rows[j].userId
  }

  // =====================================================================
  // The loops of `build_combined`
  // =====================================================================

  /** The first loop: one seeded entry per member user id, and the key order of `by_user`. */
  method SeedMembers(members: seq<Member>) returns (byUser: map<int, Row>, order: seq<int>)
    ensures forall u :: u in byUser <==> LastMember(members, u).Some?
    ensures forall u :: u in byUser ==> byUser[u] == BaseRow(members, u)
    ensures forall u :: u in order <==> u in byUser
    ensures Distinct(order)
  {
    byUser, order := map[], [];
    for i := 0 to |members|
      invariant forall u :: u in byUser <==> LastMember(members[..i], u).Some?
      invariant forall u :: u in byUser ==> byUser[u] == BaseRow(members[..i], u)
      invariant forall u :: u in order <==> u in byUser
      invariant Distinct(order)
    {
      var member := members[i];
      assert members[..i + 1][..i] == members[..i] && members[..i + 1][i] == member;
      if member.userId.Some? {
        var u := member.userId.value;
        if u !in byUser {
          order := order + [u];
        }
        byUser := byUser[u := SeedRow(member, u)];
      }
    }
    assert members[..|members|] == members;
  }

  /** What the second loop keeps: `byUser` groups the messages of `prefix` by sender, `order` lists the senders once each. */
  ghost predicate Grouped(prefix: seq<Message>, byUser: map<int, seq<Message>>, order: seq<int>) {
    Buckets(byUser, order, u => Some(u) in Senders(prefix), u => FromSender(prefix, Some(u)))
  }

  /**
   * `Grouped` with the sender test and the bucket as parameters: the keys are
   * the senders, each holds its bucket, `order` lists the keys once each.
   */
  ghost predicate Buckets(byUser: map<int, seq<Message>>, order: seq<int>,
                          isSender: int -> bool, bucket: int -> seq<Message>) {
    && (forall u :: u in byUser <==> isSender(u))
    && (forall u :: u in byUser ==> byUser[u] == bucket(u))
    && (forall u :: u in order <==> u in byUser)
    && Distinct(order)
  }

  /** The second loop: `messages_by_user`, each sender's messages in input order. */
  method GroupMessages(messages: seq<Message>) returns (byUser: map<int, seq<Message>>, order: seq<int>)
    ensures forall u :: u in byUser <==> Some(u) in Senders(messages)
    ensures forall u :: u in byUser ==> byUser[u] == FromSender(messages, Some(u))
    ensures forall u :: u in order <==> u in byUser
    ensures Distinct(order)
  {
    byUser, order := map[], [];
    for i := 0 to |messages|
      invariant Grouped(messages[..i], byUser, order)
    {
      assert messages[..i + 1] == messages[..i] + [messages[i]];
      byUser, order := AddMessage(messages[..i], messages[i], byUser, order);
    }
    assert messages[..|messages|] == messages;
  }

  /** One pass of the second loop: `messages_by_user[uid].append(msg)` for a message with a sender. */
  method AddMessage(prefix: seq<Message>, msg: Message, byUser: map<int, seq<Message>>, order: seq<int>)
    returns (byUser': map<int, seq<Message>>, order': seq<int>)
    requires Grouped(prefix, byUser, order)
    ensures Grouped(prefix + [msg], byUser', order')
  {
    if msg.senderId.None? {
      GroupedSkip(prefix, msg, byUser, order);
      return byUser, order;
    }
    var u := msg.senderId.value;
    var bucket := if u in byUser then byUser[u] else [];
    order' := if u in byUser then order else order + [u];
    byUser' := byUser[u := bucket + [msg]];
    GroupedAppend(prefix, msg, byUser, order, u);
  }

  /** Appending to the input: the senders gain the new message's sender, and only its bucket grows. */
  lemma AppendOne(prefix: seq<Message>, msg: Message)
    ensures forall k :: k in Senders(prefix + [msg]) <==> k in Senders(prefix) || k == msg.senderId
    ensures forall k :: FromSender(prefix + [msg], k) == FromSender(prefix, k) + (if msg.senderId == k then [msg] else [])
  {
    var s := prefix + [msg];
    assert s[..|prefix|] == prefix && s[|prefix|] == msg;
  }

  /** A message without a sender leaves the grouping as it is. */
  lemma GroupedSkip(prefix: seq<Message>, msg: Message, byUser: map<int, seq<Message>>, order: seq<int>)
    requires Grouped(prefix, byUser, order) && msg.senderId.None?
    ensures Grouped(prefix + [msg], byUser, order)
  {
    AppendOne(prefix, msg);
  }

  /** A message from `id` goes at the end of `id`'s bucket, which is created (and its key recorded) when new. */
  lemma GroupedAppend(prefix: seq<Message>, msg: Message, byUser: map<int, seq<Message>>, order: seq<int>, id: int)
    requires Grouped(prefix, byUser, order) && msg.senderId == Some(id)
    ensures Grouped(prefix + [msg],
                    byUser[id := (if id in byUser then byUser[id] else []) + [msg]],
                    if id in byUser then order else order + [id])
  {
    AppendOne(prefix, msg);
    FromSenderNonEmpty(prefix, Some(id));
    BucketsStep(byUser, order,
                u => Some(u) in Senders(prefix), u => FromSender(prefix, Some(u)),
                u => Some(u) in Senders(prefix + [msg]), u => FromSender(prefix + [msg], Some(u)),
                id, msg);
  }

  /** Appending `msg` to the bucket of `id`, creating it (and recording the key) when new, keeps `Buckets`. */
  lemma BucketsStep(byUser: map<int, seq<Message>>, order: seq<int>,
                    isSender: int -> bool, bucket: int -> seq<Message>,
                    isSender': int -> bool, bucket': int -> seq<Message>, id: int, msg: Message)
    requires Buckets(byUser, order, isSender, bucket)
    requires forall u :: isSender'(u) <==> isSender(u) || u == id
    requires forall u :: bucket'(u) == if u == id then bucket(u) + [msg] else bucket(u)
    requires !isSender(id) ==> bucket(id) == []
    ensures Buckets(byUser[id := (if id in byUser then byUser[id] else []) + [msg]],
                    if id in byUser then order else order + [id], isSender', bucket')
  {
    if id !in byUser {
      DistinctSnoc(order, id);
    }
  }

  lemma DistinctSnoc(s: seq<int>, x: int)
    requires Distinct(s) && x !in s
    ensures Distinct(s + [x])
  {
  }

  /** The body of the third loop for one sender: fills in count, timestamps, username and digest. */
  method SummarizeUser(entry: Row, msgs: seq<Message>, recentLimit: int, maxChars: int) returns (row: Row)
    ensures row == Summarize(entry, msgs, recentLimit, maxChars)
  {
    var sorted := SortByTime(msgs);
    var first, last := entry.firstMessageAt, entry.lastMessageAt;
    if sorted != [] {
      first, last := Some(sorted[0].timestamp), Some(sorted[|sorted| - 1].timestamp);
    }
    var username := entry.username;
    if !Truthy(username) {
      username := BackfillUsername(username, sorted);
    }
    var blob := RecentDigest(sorted, recentLimit, maxChars);
    row := entry.(messageCount := |sorted|, firstMessageAt := first, lastMessageAt := last,
                  username := username, recentMessages := blob);
  }

  /** The username back-fill loop: scans the sorted messages from the newest for a non-empty `sender_username`. */
  method BackfillUsername(current: Option<string>, sorted: seq<Message>) returns (username: Option<string>)
    ensures username == Backfill(current, sorted)
  {
    username := current;
    var j := |sorted|;
    assert sorted[..j] == sorted;
    while j > 0
      invariant 0 <= j <= |sorted|
      invariant username == current
      invariant LatestUsername(sorted[..j]) == LatestUsername(sorted)
    {
      assert sorted[..j][..j - 1] == sorted[..j - 1];
      var name := sorted[j - 1].senderUsername;
      if Truthy(name) {
        username := name;
        return;
      }
      j := j - 1;
    }
    assert sorted[..0] == [];
  }

  /** The recent-messages loop, the join and the truncation. */
  method RecentDigest(sorted: seq<Message>, recentLimit: int, maxChars: int) returns (blob: string)
    ensures blob == Digest(sorted, recentLimit, maxChars)
  {
    var window := sorted[SliceBound(|sorted|, -recentLimit)..];
    var recent: seq<string> := [];
    var j := |window|;
    while j > 0
      invariant 0 <= j <= |window|
      invariant recent == RecentTexts(window[j..])
    {
      j := j - 1;
      assert window[j..][1..] == window[j + 1..];
      var text := NormalizeText(window[j].text);
      if text != "" {
        recent := recent + [text];
      }
    }
    assert window[0..] == window;
    blob := Join(recent, " | ");
    if |blob| > maxChars {
      blob := RStrip(blob[..SliceBound(|blob|, maxChars)]) + "\U{2026}";
    }
  }

  /** `sorted(by_user.keys())` for distinct keys: ascending, with the same elements. */
  method SortIds(ids: seq<int>) returns (sorted: seq<int>)
    requires Distinct(ids)
    ensures StrictlyIncreasing(sorted)
    ensures |sorted| == |ids|
    ensures forall x :: x in sorted <==> x in ids
  {
    sorted := [];
    for i := 0 to |ids|
      invariant StrictlyIncreasing(sorted)
      invariant |sorted| == i
      invariant forall x :: x in sorted <==> x in ids[..i]
    {
      assert ids[..i + 1] == ids[..i] + [ids[i]];
      sorted := InsertId(sorted, ids[i]);
    }
    assert ids[..|ids|] == ids;
  }

  /** Puts a new id into its place in an ascending sequence. */
  method InsertId(sorted: seq<int>, x: int) returns (next: seq<int>)
    requires StrictlyIncreasing(sorted) && x !in sorted
    ensures StrictlyIncreasing(next)
    ensures |next| == |sorted| + 1
    ensures forall y :: y in next <==> y in sorted || y == x
  {
    var j := 0;
    while j < |sorted| && sorted[j] < x
      invariant 0 <= j <= |sorted|
      invariant forall k :: 0 <= k < j ==> sorted[k] < x
    {
      j := j + 1;
    }
    next := sorted[..j] + [x] + sorted[j..];
    forall a, b | 0 <= a < b < |next| ensures next[a] < next[b] {
      if b < j {
        assert next[a] == sorted[a] && next[b] == sorted[b];
      } else if b == j {
        assert next[a] == sorted[a];
      } else if a < j {
        assert next[a] == sorted[a] && next[b] == sorted[b - 1];
      } else if a == j {
        assert next[b] == sorted[b - 1] && sorted[j] <= sorted[b - 1];
      } else {
        assert next[a] == sorted[a - 1] && next[b] == sorted[b - 1];
      }
    }
    assert forall y :: y in next <==> y in sorted[..j] || y == x || y in sorted[j..];
    assert sorted == sorted[..j] + sorted[j..];
  }

  /** One pass of the third loop: the entry of sender `u`, seeded or fresh, summarised over the sender's messages. */
  method SenderRow(members: seq<Member>, messages: seq<Message>, entry: Row, u: int, msgs: seq<Message>, recentLimit: int, maxChars: int)
    returns (row: Row)
    requires Some(u) in Senders(messages) && msgs == FromSender(messages, Some(u))
    requires entry == BaseRow(members, u)
    ensures row == ExpectedRow(members, messages, u, recentLimit, maxChars)
  {
    HasSenderInSenders(messages, u);
    row := SummarizeUser(entry, msgs, recentLimit, maxChars);
  }

  /**
   * What the third loop keeps: the members and the senders summarised so far
   * (`done`) have entries, the summarised ones hold their final row and the
   * others still their member row; `userOrder` lists the entries in insertion order.
   */
  ghost predicate Filled(members: seq<Member>, messages: seq<Message>, byUser: map<int, Row>, userOrder: seq<int>,
                         done: seq<int>, recentLimit: int, maxChars: int) {
    Tracks(byUser, userOrder, done,
           u => LastMember(members, u).Some?,
           u => ExpectedRow(members, messages, u, recentLimit, maxChars),
           u => BaseRow(members, u))
  }

  /**
   * `Filled` with the member test, the final row and the member row as
   * parameters: the ids in `byUser` are the seeded ones and the `done` ones,
   * `userOrder` lists them once each, `done` ids hold `final` and the others `base`.
   */
  ghost predicate Tracks(byUser: map<int, Row>, userOrder: seq<int>, done: seq<int>,
                         seeded: int -> bool, final: int -> Row, base: int -> Row) {
    && (forall u :: u in byUser <==> seeded(u) || u in done)
    && (forall u :: u in userOrder <==> u in byUser)
    && Distinct(userOrder)
    && (forall u :: u in byUser && u in done ==> byUser[u] == final(u))
    && (forall u :: u in byUser && u !in done ==> byUser[u] == base(u))
  }

  /** One pass of the third loop: `by_user.setdefault(uid, ...)`, then the summary of that sender. */
  method AddSender(members: seq<Member>, messages: seq<Message>, byUser: map<int, Row>, userOrder: seq<int>,
                   ghost done: seq<int>, u: int, msgs: seq<Message>, recentLimit: int, maxChars: int)
    returns (byUser': map<int, Row>, userOrder': seq<int>)
    requires Filled(members, messages, byUser, userOrder, done, recentLimit, maxChars)
    requires u !in done && Some(u) in Senders(messages) && msgs == FromSender(messages, Some(u))
    ensures Filled(members, messages, byUser', userOrder', done + [u], recentLimit, maxChars)
  {
    var entry := if u in byUser then byUser[u] else EmptyRow(u);
    userOrder' := if u in byUser then userOrder else userOrder + [u];
    var row := SenderRow(members, messages, entry, u, msgs, recentLimit, maxChars);
    byUser' := byUser[u := row];
    TracksStep(byUser, userOrder, done,
               u => LastMember(members, u).Some?,
               u => ExpectedRow(members, messages, u, recentLimit, maxChars),
               u => BaseRow(members, u), u, row);
  }

  /** Storing the final row of an id not yet done, adding the id when new, keeps `Tracks`. */
  lemma TracksStep(byUser: map<int, Row>, userOrder: seq<int>, done: seq<int>,
                   seeded: int -> bool, final: int -> Row, base: int -> Row, u: int, row: Row)
    requires Tracks(byUser, userOrder, done, seeded, final, base)
    requires u !in done && row == final(u)
    ensures Tracks(byUser[u := row], if u in byUser then userOrder else userOrder + [u], done + [u], seeded, final, base)
  {
    var order := if u in byUser then userOrder else userOrder + [u];
    if u !in byUser {
      assert u !in userOrder;
      assert forall i :: 0 <= i < |userOrder| ==> order[i] == userOrder[i];
    }
  }

  /** The third loop: every sender's entry, created when missing, then summarised. */
  method SummarizeSenders(members: seq<Member>, messages: seq<Message>, seeded: map<int, Row>, seededOrder: seq<int>,
                          byMessages: map<int, seq<Message>>, senderOrder: seq<int>, recentLimit: int, maxChars: int)
    returns (byUser: map<int, Row>, userOrder: seq<int>)
    requires Filled(members, messages, seeded, seededOrder, [], recentLimit, maxChars)
    requires forall u :: u in senderOrder ==>
      u in byMessages && Some(u) in Senders(messages) && byMessages[u] == FromSender(messages, Some(u))
    requires Distinct(senderOrder)
    ensures Filled(members, messages, byUser, userOrder, senderOrder, recentLimit, maxChars)
  {
    byUser, userOrder := seeded, seededOrder;
    for i := 0 to |senderOrder|
      invariant Filled(members, messages, byUser, userOrder, senderOrder[..i], recentLimit, maxChars)
    {
      var u := senderOrder[i];
      assert senderOrder[..i + 1] == senderOrder[..i] + [u];
      byUser, userOrder := AddSender(members, messages, byUser, userOrder, senderOrder[..i], u, byMessages[u], recentLimit, maxChars);
    }
    assert senderOrder[..|senderOrder|] == senderOrder;
  }

  /** The three loops of `build_combined` that fill `by_user`. */
  method FillRows(members: seq<Member>, messages: seq<Message>, recentLimit: int, maxChars: int)
    returns (byUser: map<int, Row>, userOrder: seq<int>)
    ensures forall u :: u in byUser <==> LastMember(members, u).Some? || Some(u) in Senders(messages)
    ensures forall u :: u in byUser ==> byUser[u] == ExpectedRow(members, messages, u, recentLimit, maxChars)
    ensures forall u :: u in userOrder <==> u in byUser
    ensures Distinct(userOrder)
  {
    var seeded, seededOrder := SeedMembers(members);
    var byMessages, senderOrder := GroupMessages(messages);
    byUser, userOrder := SummarizeSenders(members, messages, seeded, seededOrder, byMessages, senderOrder, recentLimit, maxChars);
    forall u | u in byUser ensures byUser[u] == ExpectedRow(members, messages, u, recentLimit, maxChars) {
      HasSenderInSenders(messages, u);
    }
  }

  /** `build_combined`: one row per user id, in ascending id order. */
  method BuildCombined(members: seq<Member>, messages: seq<Message>, recentLimit: int, maxChars: int) returns (rows: seq<Row>)
    ensures IdsAscending(rows)
    ensures forall u :: (exists k :: 0 <= k < |rows| && rows[k].userId == u) <==> HasMember(members, u) || HasSender(messages, u)
    ensures forall k :: 0 <= k < |rows| ==> rows[k] == ExpectedRow(members, messages, rows[k].userId, recentLimit, maxChars)
  {
    var byUser, userOrder := FillRows(members, messages, recentLimit, maxChars);
    var ids := SortIds(userOrder);
    forall k | 0 <= k < |ids| ensures ids[k] in byUser {
      assert ids[k] in ids;
    }
    rows := seq(|ids|, k requires 0 <= k < |ids| => byUser[ids[k]]);
    forall k | 0 <= k < |rows| ensures rows[k].userId == ids[k] {
      ExpectedRowId(members, messages, ids[k], recentLimit, maxChars);
    }
    forall u ensures (exists k :: 0 <= k < |rows| && rows[k].userId == u) <==> HasMember(members, u) || HasSender(messages, u) {
      LastMemberIsLast(members, u);
      HasSenderInSenders(messages, u);
      if u in byUser {
        assert u in userOrder;
        var k :| 0 <= k < |ids| && ids[k] == u;
        assert rows[k].userId == u;
      }
    }
  }

  lemma ExpectedRowId(members: seq<Member>, messages: seq<Message>, u: int, recentLimit: int, maxChars: int)
    ensures ExpectedRow(members, messages, u, recentLimit, maxChars).userId == u
  {
  }

  // =====================================================================
  // What the rows say
  // =====================================================================

  /** `message_count` is the number of input messages from the user; without any, the row keeps its defaults. */
  lemma RowMessageCount(members: seq<Member>, messages: seq<Message>, u: int, recentLimit: int, maxChars: int)
    ensures ExpectedRow(members, messages, u, recentLimit, maxChars).messageCount == |FromSender(messages, Some(u))|
    ensures !HasSender(messages, u) ==>
      var row := ExpectedRow(members, messages, u, recentLimit, maxChars);
      row.messageCount == 0 && row.firstMessageAt.None? && row.lastMessageAt.None? && row.recentMessages == ""
  {
    HasSenderInSenders(messages, u);
    SortByTimePermutes(FromSender(messages, Some(u)));
  }

  /** `first_message_at` and `last_message_at` are the earliest and the latest timestamp among the user's messages. */
  lemma RowFirstLast(members: seq<Member>, messages: seq<Message>, u: int, recentLimit: int, maxChars: int)
    requires HasSender(messages, u)
    ensures var row := ExpectedRow(members, messages, u, recentLimit, maxChars);
      && row.firstMessageAt.Some? && row.lastMessageAt.Some?
      && (exists i :: 0 <= i < |messages| && messages[i].senderId == Some(u) && messages[i].timestamp == row.firstMessageAt.value)
      && (exists i :: 0 <= i < |messages| && messages[i].senderId == Some(u) && messages[i].timestamp == row.lastMessageAt.value)
      && forall i :: 0 <= i < |messages| && messages[i].senderId == Some(u) ==>
           LessEq(row.firstMessageAt.value, messages[i].timestamp) && LessEq(messages[i].timestamp, row.lastMessageAt.value)
  {
    HasSenderInSenders(messages, u);
    var msgs := FromSender(messages, Some(u));
    var row := ExpectedRow(members, messages, u, recentLimit, maxChars);
    var first, last := SortedExtremes(msgs);
    assert row.firstMessageAt == Some(first.timestamp) && row.lastMessageAt == Some(last.timestamp);
    FromSenderMembers(messages, Some(u));
    assert first in messages && last in messages;
    var a :| 0 <= a < |messages| && messages[a] == first;
    var b :| 0 <= b < |messages| && messages[b] == last;
    forall i | 0 <= i < |messages| && messages[i].senderId == Some(u)
      ensures LessEq(first.timestamp, messages[i].timestamp) && LessEq(messages[i].timestamp, last.timestamp)
    {
      assert messages[i] in msgs;
    }
  }

  /** The first and the last message after the sort, with the earliest and latest timestamps over all of `msgs`. */
  lemma SortedExtremes(msgs: seq<Message>) returns (first: Message, last: Message)
    requires msgs != []
    ensures var sorted := SortByTime(msgs); sorted != [] && first == sorted[0] && last == sorted[|sorted| - 1]
    ensures first in msgs && last in msgs
    ensures forall x :: x in msgs ==> LessEq(first.timestamp, x.timestamp) && LessEq(x.timestamp, last.timestamp)
  {
    var sorted := SortByTime(msgs);
    SortByTimePermutes(msgs);
    SortByTimeSorted(msgs);
    SameElements(sorted, msgs);
    SortedBounds(sorted);
    first, last := sorted[0], sorted[|sorted| - 1];
  }

  lemma SameElements(a: seq<Message>, b: seq<Message>)
    requires multiset(a) == multiset(b)
    ensures forall x :: x in a <==> x in b
  {
    forall x ensures x in a <==> x in b {
      assert x in a <==> x in multiset(a);
      assert x in b <==> x in multiset(b);
    }
  }

  /** In the sorted messages, every timestamp lies between the first and the last one. */
  lemma SortedBounds(sorted: seq<Message>)
    requires SortedByTime(sorted) && sorted != []
    ensures forall x :: x in sorted ==>
      LessEq(sorted[0].timestamp, x.timestamp) && LessEq(x.timestamp, sorted[|sorted| - 1].timestamp)
  {
    forall x | x in sorted
      ensures LessEq(sorted[0].timestamp, x.timestamp) && LessEq(x.timestamp, sorted[|sorted| - 1].timestamp)
    {
      SortedHeadLeast(sorted, x);
      SortedLastGreatest(sorted, x);
    }
  }

  /** A non-empty member username is kept; otherwise the latest non-empty sender username, if any, replaces it. */
  lemma RowUsername(members: seq<Member>, messages: seq<Message>, u: int, recentLimit: int, maxChars: int)
    ensures var base := BaseRow(members, u);
      var row := ExpectedRow(members, messages, u, recentLimit, maxChars);
      var sorted := SortByTime(FromSender(messages, Some(u)));
      && (Truthy(base.username) ==> row.username == base.username)
      && (!Truthy(base.username) && LatestUsername(sorted).None? ==> row.username == base.username)
      && (!Truthy(base.username) && LatestUsername(sorted).Some? ==>
            exists i :: 0 <= i < |sorted| && Truthy(sorted[i].senderUsername) && row.username == sorted[i].senderUsername
              && forall j :: i < j < |sorted| ==> !Truthy(sorted[j].senderUsername))
  {
    var sorted := SortByTime(FromSender(messages, Some(u)));
    LatestUsernameIsLatest(sorted);
    if FromSender(messages, Some(u)) == [] {
      assert sorted == [];
    }
  }

  /** A member's own fields pass through unchanged. */
  lemma RowKeepsMemberFields(members: seq<Member>, messages: seq<Message>, u: int, recentLimit: int, maxChars: int)
    requires HasMember(members, u)
    ensures var row := ExpectedRow(members, messages, u, recentLimit, maxChars);
      exists i :: 0 <= i < |members| && members[i].userId == Some(u)
        && (forall j :: i < j < |members| ==> members[j].userId != Some(u))
        && row.firstName == members[i].firstName && row.lastName == members[i].lastName
        && row.phone == members[i].phone && row.bio == members[i].bio && row.lastSeen == members[i].lastSeen
        && row.isPremium == members[i].isPremium && row.isBot == members[i].isBot
        && (Truthy(members[i].username) ==> row.username == members[i].username)
  {
    LastMemberIsLast(members, u);
  }

  /** The digest is at most one character longer than `max_recent_chars`, and is the joined texts when they fit. */
  lemma RowDigest(members: seq<Member>, messages: seq<Message>, u: int, recentLimit: int, maxChars: int)
    requires HasSender(messages, u)
    ensures var row := ExpectedRow(members, messages, u, recentLimit, maxChars);
      var texts := RecentTexts(RecentWindow(SortByTime(FromSender(messages, Some(u))), recentLimit));
      && (maxChars >= 0 ==> |row.recentMessages| <= maxChars + 1)
      && (|Join(texts, " | ")| <= maxChars ==> row.recentMessages == Join(texts, " | "))
  {
    HasSenderInSenders(messages, u);
    var texts := RecentTexts(RecentWindow(SortByTime(FromSender(messages, Some(u))), recentLimit));
    TruncateSpec(Join(texts, " | "), maxChars);
  }
}
