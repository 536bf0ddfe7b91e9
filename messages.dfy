/**
 * Message post-processing (scraper/messages.py): the message record, the
 * sender-name and forward-source helpers, the date window applied while
 * scanning history newest-first, the stable sorts of `sort_messages` and the
 * keyword filter `filter_by_keywords`.
 */
module Messages {
  import opened Wrappers
  import opened Strings

  /** One exported message, as `scrape_messages` builds it. */
  datatype Message = Message(
    senderId: Option<int>,
    senderUsername: Option<string>,
    senderName: Option<string>,
    messageId: int,
    timestamp: string,          // ISO-8601 text, compared as a Python string
    text: Option<string>,
    replyToId: Option<int>,
    forwardFrom: Option<string>,
    hasMedia: bool,
    mediaType: Option<string>)

  // =====================================================================
  // Field helpers: `_get_sender_name`, `_get_forward_info`
  // =====================================================================

  /** The sender object of a message: a user, or a chat/channel (which may have a `title`). */
  datatype Sender =
    | User(firstName: Option<string>, lastName: Option<string>, username: Option<string>)
    | Chat(title: Option<string>, username: Option<string>)

  /** `[p for p in parts if p]`. */
  function PresentParts(parts: seq<Option<string>>): seq<string> {
    if parts == [] then []
    else (if Truthy(parts[0]) then [parts[0].value] else []) + PresentParts(parts[1..])
  }

  lemma PresentPartsOfName(first: Option<string>, last: Option<string>)
    ensures Join(PresentParts([first, last]), " ")
         == if Truthy(first) && Truthy(last) then first.value + " " + last.value
            else if Truthy(first) then first.value
            else if Truthy(last) then last.value
            else ""
  {
    assert [first, last][1..] == [last] && [last][1..] == [];
    var tail := if Truthy(last) then [last.value] else [];
    assert PresentParts([last]) == tail + PresentParts([]);
    assert PresentParts([first, last]) == (if Truthy(first) then [first.value] else []) + tail;
  }

  /** `_get_sender_name`: a user's non-empty name parts joined by one space, a chat's title. */
  function SenderName(sender: Option<Sender>): (r: Option<string>)
    ensures sender.None? ==> r.None?
    ensures sender.Some? && sender.value.Chat? ==> r == sender.value.title
    ensures sender.Some? && sender.value.User? ==>
      var first, last := sender.value.firstName, sender.value.lastName;
      r == Some(if Truthy(first) && Truthy(last) then first.value + " " + last.value
                else if Truthy(first) then first.value
                else if Truthy(last) then last.value
                else "")
  {
    match sender
    case None => None
    case Some(User(first, last, _)) =>
      PresentPartsOfName(first, last);
      Some(Join(PresentParts([first, last]), " "))
    case Some(Chat(title, _)) => title
  }

  /**
   * A message's `fwd_from`: a standard forward header with an optional
   * original author name and an optional numeric origin id, or any other
   * header object.
   */
  datatype ForwardHeader =
    | FwdHeader(fromName: Option<string>, fromId: Option<int>)
    | OtherForward

  /** `_get_forward_info`: the author name, else the origin id as text, else "forwarded". */
  function ForwardInfo(fwd: Option<ForwardHeader>): (r: Option<string>)
    ensures r.None? <==> fwd.None?
    ensures fwd.Some? && fwd.value.FwdHeader? && Truthy(fwd.value.fromName) ==> r == fwd.value.fromName
    ensures fwd.Some? && fwd.value.FwdHeader? && !Truthy(fwd.value.fromName)
              && fwd.value.fromId.Some? && fwd.value.fromId.value != 0
            ==> r == Some(IntToString(fwd.value.fromId.value)) && ParseInt(r.value) == fwd.value.fromId
    ensures fwd == Some(OtherForward) ==> r == Some("forwarded")
    ensures fwd.Some? && fwd.value.FwdHeader? && !Truthy(fwd.value.fromName)
              && (fwd.value.fromId.None? || fwd.value.fromId.value == 0)
            ==> r == Some("forwarded")
  {
    match fwd
    case None => None
    case Some(OtherForward) => Some("forwarded")
    case Some(FwdHeader(name, id)) =>
      if Truthy(name) then name
      else if id.Some? && id.value != 0 then
        IntToStringRoundTrip(id.value);
        Some(IntToString(id.value))
      else Some("forwarded")
  }

  /** The three forward headers of the source's own test: a name, an id, and neither. */
  lemma ForwardInfoExamples()
    ensures ForwardInfo(Some(FwdHeader(Some("Forwarded"), None))) == Some("Forwarded")
    ensures ForwardInfo(Some(FwdHeader(None, Some(123)))) == Some("123")
    ensures ForwardInfo(Some(FwdHeader(None, None))) == Some("forwarded")
  {
    assert NatToString(1) == "1";
    assert NatToString(12) == "12";
    assert NatToString(123) == "123";
  }

  /** What the Telegram client hands over for one message. */
  datatype RawMessage = RawMessage(
    senderId: Option<int>,
    id: int,
    isoDate: string,
    message: Option<string>,
    replyTo: bool,
    replyToMsgId: Option<int>,
    fwdFrom: Option<ForwardHeader>,
    mediaClass: Option<string>)    // class name of the attached media object, if any

  /** `getattr(sender, 'username', None) if sender else None`. */
  function SenderUsername(sender: Option<Sender>): Option<string> {
    match sender
    case None => None
    case Some(s) => s.username
  }

  /** The message record built inside `scrape_messages`. */
  function ToRecord(raw: RawMessage, sender: Option<Sender>): (m: Message)
    ensures m.senderId == raw.senderId && m.messageId == raw.id && m.timestamp == raw.isoDate
    ensures m.text.Some? && (Truthy(raw.message) ==> m.text == raw.message)
    ensures !Truthy(raw.message) ==> m.text == Some("")
    ensures m.replyToId == (if raw.replyTo then raw.replyToMsgId else None)
    ensures m.mediaType == raw.mediaClass && (m.hasMedia <==> raw.mediaClass.Some?)
    ensures m.senderName == SenderName(sender) && m.forwardFrom == ForwardInfo(raw.fwdFrom)
    ensures m.senderUsername == (if sender.Some? then sender.value.username else None)
    ensures sender.None? ==> m.senderUsername.None? && m.senderName.None?
  {
    Message(
      raw.senderId,
      SenderUsername(sender),
      SenderName(sender),
      raw.id,
      raw.isoDate,
      Some(if Truthy(raw.message) then raw.message.value else ""),
      if raw.replyTo then raw.replyToMsgId else None,
      ForwardInfo(raw.fwdFrom),
      raw.mediaClass.Some?,
      raw.mediaClass)
  }

  // =====================================================================
  // Date window of `scrape_messages`
  // =====================================================================

  /** A value fetched together with the calendar day of its message (days as integers). */
  datatype Dated<T> = Dated(day: int, item: T)

  predicate TooNew(day: int, until: Option<int>) {
    until.Some? && day > until.value
  }

  predicate TooOld(day: int, since: Option<int>) {
    since.Some? && day < since.value
  }

  /** The scan breaks at a message that passes the `until` test and fails the `since` test. */
  predicate Stops(day: int, since: Option<int>, until: Option<int>) {
    !TooNew(day, until) && TooOld(day, since)
  }

  predicate InWindow(day: int, since: Option<int>, until: Option<int>) {
    !TooNew(day, until) && !TooOld(day, since)
  }

  /** Index of the first message at which the scan breaks, or the length when it never does. */
  function StopIndex<T>(s: seq<Dated<T>>, since: Option<int>, until: Option<int>): (n: nat)
    ensures n <= |s|
    ensures forall i :: 0 <= i < n ==> !Stops(s[i].day, since, until)
    ensures n < |s| ==> Stops(s[n].day, since, until)
  {
    if s == [] || Stops(s[0].day, since, until) then 0 else 1 + StopIndex(s[1..], since, until)
  }

  /** The messages of `s` that are not newer than `until`, in order. */
  function NotTooNew<T>(s: seq<Dated<T>>, until: Option<int>): seq<Dated<T>> {
    if s == [] then []
    else NotTooNew(s[..|s| - 1], until) + (if TooNew(s[|s| - 1].day, until) then [] else [s[|s| - 1]])
  }

  /** The messages of `s` whose day lies within both bounds, in order. */
  function Within<T>(s: seq<Dated<T>>, since: Option<int>, until: Option<int>): seq<Dated<T>> {
    if s == [] then []
    else Within(s[..|s| - 1], since, until) + (if InWindow(s[|s| - 1].day, since, until) then [s[|s| - 1]] else [])
  }

  /** What the scan keeps: the prefix before the break, minus the too-new messages. */
  function Window<T>(s: seq<Dated<T>>, since: Option<int>, until: Option<int>): seq<Dated<T>> {
    NotTooNew(s[..StopIndex(s, since, until)], until)
  }

  /** The `continue`/`break` loop of `scrape_messages` over history delivered newest first. */
  method SelectWindow<T>(newestFirst: seq<Dated<T>>, since: Option<int>, until: Option<int>)
    returns (kept: seq<Dated<T>>)
    ensures kept == Window(newestFirst, since, until)
  {
    kept := [];
    var i := 0;
    while i < |newestFirst|
      invariant 0 <= i <= StopIndex(newestFirst, since, until)
      invariant kept == NotTooNew(newestFirst[..i], until)
    {
      var day := newestFirst[i].day;
      NotTooNewNext(newestFirst, i, until);
      if until.Some? && day > until.value {
        i := i + 1;
        continue;
      }
      if since.Some? && day < since.value {
        break;
      }
      kept := kept + [newestFirst[i]];
      i := i + 1;
    }
  }

  lemma NotTooNewNext<T>(s: seq<Dated<T>>, i: nat, until: Option<int>)
    requires i < |s|
    ensures NotTooNew(s[..i + 1], until) == NotTooNew(s[..i], until) + (if TooNew(s[i].day, until) then [] else [s[i]])
  {
    assert s[..i + 1][..i] == s[..i];
  }

  lemma {:induction false} NotTooNewBeforeStop<T>(s: seq<Dated<T>>, since: Option<int>, until: Option<int>)
    requires forall i :: 0 <= i < |s| ==> !Stops(s[i].day, since, until)
    ensures NotTooNew(s, until) == Within(s, since, until)
  {
    if s != [] {
      NotTooNewBeforeStop(s[..|s| - 1], since, until);
    }
  }

  /** Every message the scan keeps lies within the inclusive bounds `since` and `until`. */
  lemma WindowWithinBounds<T>(s: seq<Dated<T>>, since: Option<int>, until: Option<int>)
    ensures Window(s, since, until) == Within(s[..StopIndex(s, since, until)], since, until)
    ensures forall k :: 0 <= k < |Window(s, since, until)| ==> InWindow(Window(s, since, until)[k].day, since, until)
  {
    var n := StopIndex(s, since, until);
    NotTooNewBeforeStop(s[..n], since, until);
    WithinInWindow(s[..n], since, until);
  }

  lemma {:induction false} WithinInWindow<T>(s: seq<Dated<T>>, since: Option<int>, until: Option<int>)
    ensures forall k :: 0 <= k < |Within(s, since, until)| ==> InWindow(Within(s, since, until)[k].day, since, until)
  {
    if s != [] {
      WithinInWindow(s[..|s| - 1], since, until);
    }
  }

  predicate NewestFirst<T>(s: seq<Dated<T>>) {
    forall i, j :: 0 <= i < j < |s| ==> s[i].day >= s[j].day
  }

  lemma {:induction false} WithinAllOutside<T>(p: seq<Dated<T>>, q: seq<Dated<T>>, since: Option<int>, until: Option<int>)
    requires forall k :: 0 <= k < |q| ==> !InWindow(q[k].day, since, until)
    ensures Within(p + q, since, until) == Within(p, since, until)
    decreases |q|
  {
    if q != [] {
      var q' := q[..|q| - 1];
      assert (p + q)[..|p + q| - 1] == p + q';
      WithinAllOutside(p, q', since, until);
    } else {
      assert p + q == p;
    }
  }

  /**
   * When history really arrives newest first, the scan keeps exactly the
   * messages within the bounds, in input order: nothing after the break
   * point could have been inside the window.
   */
  lemma WindowOfNewestFirst<T>(s: seq<Dated<T>>, since: Option<int>, until: Option<int>)
    requires NewestFirst(s)
    ensures Window(s, since, until) == Within(s, since, until)
  {
    var n := StopIndex(s, since, until);
    var head := s[..n];
    NotTooNewBeforeStop(head, since, until);
    assert Window(s, since, until) == Within(head, since, until);
    if n < |s| {
      var tail := s[n..];
      TailTooOld(s, n, since, until);
      WithinAllOutside(head, tail, since, until);
      SplitAt(s, n);
    } else {
      assert head == s;
    }
  }

  /** Newest first, everything from a too-old message on is too old as well. */
  lemma TailTooOld<T>(s: seq<Dated<T>>, n: nat, since: Option<int>, until: Option<int>)
    requires NewestFirst(s) && n < |s| && TooOld(s[n].day, since)
    ensures forall k :: 0 <= k < |s[n..]| ==> !InWindow(s[n..][k].day, since, until)
  {
    forall k | 0 <= k < |s[n..]| ensures TooOld(s[n..][k].day, since) {
      assert s[n..][k] == s[n + k];
      if k > 0 {
        assert s[n].day >= s[n + k].day;
      }
    }
  }

  /** The history used in the repository's scraping test: three days, window from day 2 to day 3. */
  lemma WindowExample()
    ensures Window([Dated(3, "Newer"), Dated(2, "Middle"), Dated(1, "Older")], Some(2), Some(3))
         == [Dated(3, "Newer"), Dated(2, "Middle")]
  {
    var s := [Dated(3, "Newer"), Dated(2, "Middle"), Dated(1, "Older")];
    assert s[1..] == [Dated(2, "Middle"), Dated(1, "Older")] && s[1..][1..] == [Dated(1, "Older")];
    assert StopIndex(s[1..][1..], Some(2), Some(3)) == 0;
    assert StopIndex(s, Some(2), Some(3)) == 2;
    var a, b := Dated(3, "Newer"), Dated(2, "Middle");
    assert s[..2] == [a, b];
    assert [a, b][..1] == [a] && [a][..0] == [];
    assert NotTooNew([a], Some(3)) == [a];
    assert NotTooNew([a, b], Some(3)) == [a, b];
  }

  // =====================================================================
  // Stable sort by timestamp: `sorted(messages, key=lambda m: m['timestamp'])`
  // =====================================================================

  predicate SortedByTime(s: seq<Message>) {
    forall i, j :: 0 <= i < j < |s| ==> LessEq(s[i].timestamp, s[j].timestamp)
  }

  /** The messages of `s` whose timestamp is exactly `t`, in order: a sort is stable when it keeps these. */
  function WithTimestamp(s: seq<Message>, t: string): seq<Message> {
    if s == [] then [] else (if s[0].timestamp == t then [s[0]] else []) + WithTimestamp(s[1..], t)
  }

  /** Inserts `m` before the first message that is not earlier than it. */
  function Insert(m: Message, s: seq<Message>): seq<Message> {
    if s == [] || LessEq(m.timestamp, s[0].timestamp) then [m] + s
    else [s[0]] + Insert(m, s[1..])
  }

  /** Stable insertion sort by timestamp (Python's `sorted` with a key is stable). */
  function SortByTime(s: seq<Message>): seq<Message> {
    if s == [] then [] else Insert(s[0], SortByTime(s[1..]))
  }

  lemma SortedCons(x: Message, s: seq<Message>)
    requires SortedByTime(s)
    requires forall k :: 0 <= k < |s| ==> LessEq(x.timestamp, s[k].timestamp)
    ensures SortedByTime([x] + s)
  {
    var r := [x] + s;
    forall i, j | 0 <= i < j < |r| ensures LessEq(r[i].timestamp, r[j].timestamp) {
      assert r[j] == s[j - 1];
      if i > 0 {
        assert r[i] == s[i - 1];
      }
    }
  }

  lemma {:induction false} InsertPermutes(m: Message, s: seq<Message>)
    ensures multiset(Insert(m, s)) == multiset{m} + multiset(s)
  {
    if s != [] && !LessEq(m.timestamp, s[0].timestamp) {
      InsertPermutes(m, s[1..]);
      assert s == [s[0]] + s[1..];
    }
  }

  lemma {:induction false} InsertSorted(m: Message, s: seq<Message>)
    requires SortedByTime(s)
    ensures SortedByTime(Insert(m, s))
  {
    if s == [] {
    } else if LessEq(m.timestamp, s[0].timestamp) {
      forall k | 0 <= k < |s| ensures LessEq(m.timestamp, s[k].timestamp) {
        if k > 0 {
          LessEqTransitive(m.timestamp, s[0].timestamp, s[k].timestamp);
        }
      }
      SortedCons(m, s);
    } else {
      var rest := Insert(m, s[1..]);
      InsertSorted(m, s[1..]);
      InsertPermutes(m, s[1..]);
      LessEqTotal(m.timestamp, s[0].timestamp);
      forall k | 0 <= k < |rest| ensures LessEq(s[0].timestamp, rest[k].timestamp) {
        assert rest[k] in multiset(rest);
        if rest[k] != m {
          assert rest[k] in s[1..];
          var j :| 0 <= j < |s[1..]| && s[1..][j] == rest[k];
          assert s[1..][j] == s[j + 1];
        }
      }
      SortedCons(s[0], rest);
    }
  }

  lemma {:induction false} InsertWithTimestamp(m: Message, s: seq<Message>, t: string)
    ensures WithTimestamp(Insert(m, s), t) == (if m.timestamp == t then [m] else []) + WithTimestamp(s, t)
  {
    var mt := if m.timestamp == t then [m] else [];
    if s == [] || LessEq(m.timestamp, s[0].timestamp) {
      WithTimestampCons(m, s, t);
    } else {
      var rest := s[1..];
      var st := if s[0].timestamp == t then [s[0]] else [];
      InsertWithTimestamp(m, rest, t);
      assert !(m.timestamp == t && s[0].timestamp == t) by {
        LessEqReflexive(m.timestamp);
      }
      assert mt == [] || st == [];
      calc {
        WithTimestamp(Insert(m, s), t);
        { WithTimestampCons(s[0], Insert(m, rest), t); }
        st + WithTimestamp(Insert(m, rest), t);
        st + (mt + WithTimestamp(rest, t));
        { SwapEmpty(st, mt, WithTimestamp(rest, t)); }
        mt + (st + WithTimestamp(rest, t));
        { SplitAt(s, 1); WithTimestampCons(s[0], rest, t); }
        mt + WithTimestamp(s, t);
      }
    }
  }

  /** Of two pieces one of which is empty, the order does not matter. */
  lemma SwapEmpty<T>(a: seq<T>, b: seq<T>, c: seq<T>)
    requires a == [] || b == []
    ensures a + (b + c) == b + (a + c)
  {
    if a == [] {
      assert a + (b + c) == b + c == b + (a + c);
    } else {
      assert a + (b + c) == a + c == b + (a + c);
    }
  }

  lemma WithTimestampCons(x: Message, s: seq<Message>, t: string)
    ensures WithTimestamp([x] + s, t) == (if x.timestamp == t then [x] else []) + WithTimestamp(s, t)
  {
    assert ([x] + s)[1..] == s;
  }

  /** `sorted` returns a rearrangement of its input. */
  lemma {:induction false} SortByTimePermutes(s: seq<Message>)
    ensures multiset(SortByTime(s)) == multiset(s)
    ensures |SortByTime(s)| == |s|
  {
    if s != [] {
      SortByTimePermutes(s[1..]);
      InsertPermutes(s[0], SortByTime(s[1..]));
      assert s == [s[0]] + s[1..];
    }
  }

  /** `sorted` orders the messages non-decreasingly by timestamp. */
  lemma {:induction false} SortByTimeSorted(s: seq<Message>)
    ensures SortedByTime(SortByTime(s))
  {
    if s != [] {
      SortByTimeSorted(s[1..]);
      InsertSorted(s[0], SortByTime(s[1..]));
    }
  }

  /** `sorted` is stable: messages with equal timestamps keep their input order. */
  lemma {:induction false} SortByTimeStable(s: seq<Message>, t: string)
    ensures WithTimestamp(SortByTime(s), t) == WithTimestamp(s, t)
  {
    if s != [] {
      SortByTimeStable(s[1..], t);
      InsertWithTimestamp(s[0], SortByTime(s[1..]), t);
    }
  }

  lemma {:induction false} WithTimestampMembers(s: seq<Message>, t: string)
    ensures forall x :: x in WithTimestamp(s, t) <==> x in s && x.timestamp == t
  {
    if s != [] {
      WithTimestampMembers(s[1..], t);
      assert s == [s[0]] + s[1..];
    }
  }

  lemma SortedTail(s: seq<Message>)
    requires SortedByTime(s) && s != []
    ensures SortedByTime(s[1..])
  {
    forall i, j | 0 <= i < j < |s[1..]| ensures LessEq(s[1..][i].timestamp, s[1..][j].timestamp) {
      assert s[1..][i] == s[i + 1] && s[1..][j] == s[j + 1];
    }
  }

  /** The first message of a sorted sequence has the least timestamp of all its messages. */
  lemma SortedHeadLeast(s: seq<Message>, x: Message)
    requires SortedByTime(s) && x in s
    ensures LessEq(s[0].timestamp, x.timestamp)
  {
    var k :| 0 <= k < |s| && s[k] == x;
    if k == 0 {
      LessEqReflexive(x.timestamp);
    }
  }

  lemma SortedLastGreatest(s: seq<Message>, x: Message)
    requires SortedByTime(s) && x in s
    ensures LessEq(x.timestamp, s[|s| - 1].timestamp)
  {
    var k :| 0 <= k < |s| && s[k] == x;
    if k == |s| - 1 {
      LessEqReflexive(x.timestamp);
    }
  }

  lemma {:induction false} SortedSameBuckets(a: seq<Message>, b: seq<Message>)
    requires SortedByTime(a) && SortedByTime(b)
    requires forall t :: WithTimestamp(a, t) == WithTimestamp(b, t)
    ensures a == b
    decreases |a|
  {
    if a == [] && b != [] {
      var w := WithTimestamp(b, b[0].timestamp);
      assert false;
    } else if a != [] && b == [] {
      var w := WithTimestamp(a, a[0].timestamp);
      assert false;
    } else if a != [] {
      var ta, tb := a[0].timestamp, b[0].timestamp;
      WithTimestampMembers(a, ta);
      WithTimestampMembers(b, ta);
      WithTimestampMembers(a, tb);
      WithTimestampMembers(b, tb);
      assert a[0] in WithTimestamp(a, ta);
      assert b[0] in WithTimestamp(b, tb);
      SortedHeadLeast(b, a[0]);
      SortedHeadLeast(a, b[0]);
      LessEqAntisymmetric(ta, tb);
      assert WithTimestamp(a, ta) == [a[0]] + WithTimestamp(a[1..], ta);
      assert WithTimestamp(b, ta) == [b[0]] + WithTimestamp(b[1..], ta);
      assert a[0] == WithTimestamp(a, ta)[0] == WithTimestamp(b, ta)[0] == b[0];
      forall t ensures WithTimestamp(a[1..], t) == WithTimestamp(b[1..], t) {
        if t == ta {
          assert WithTimestamp(a[1..], t) == WithTimestamp(a, t)[1..];
          assert WithTimestamp(b[1..], t) == WithTimestamp(b, t)[1..];
        } else {
          assert WithTimestamp(a[1..], t) == WithTimestamp(a, t);
          assert WithTimestamp(b[1..], t) == WithTimestamp(b, t);
        }
      }
      SortedTail(a);
      SortedTail(b);
      SortedSameBuckets(a[1..], b[1..]);
      assert a == [a[0]] + a[1..] && b == [b[0]] + b[1..];
    }
  }

  /**
   * Any arrangement that is sorted by timestamp and keeps the input order of
   * equal timestamps is SortByTime's result: the stable sort is unique, so
   * SortByTime is Python's `sorted` whatever algorithm `sorted` uses.
   */
  lemma StableSortUnique(s: seq<Message>, r: seq<Message>)
    requires SortedByTime(r)
    requires forall t :: WithTimestamp(r, t) == WithTimestamp(s, t)
    ensures r == SortByTime(s)
  {
    SortByTimeSorted(s);
    forall t ensures WithTimestamp(r, t) == WithTimestamp(SortByTime(s), t) {
      SortByTimeStable(s, t);
    }
    SortedSameBuckets(r, SortByTime(s));
  }

  lemma {:induction false} SortByTimeOfSorted(s: seq<Message>)
    requires SortedByTime(s)
    ensures SortByTime(s) == s
  {
    if s != [] {
      SortedTail(s);
      SortByTimeOfSorted(s[1..]);
      assert s == [s[0]] + s[1..];
    }
  }

  /** Sorting chronologically twice gives the same order as sorting once. */
  lemma SortByTimeIdempotent(s: seq<Message>)
    ensures SortByTime(SortByTime(s)) == SortByTime(s)
  {
    SortByTimeSorted(s);
    SortByTimeOfSorted(SortByTime(s));
  }

  // =====================================================================
  // Grouping by sender: the default mode of `sort_messages`
  // =====================================================================

  /** The messages of `s` sent by `k`, in input order (one bucket of `by_sender`). */
  function FromSender(s: seq<Message>, k: Option<int>): seq<Message> {
    if s == [] then []
    else FromSender(s[..|s| - 1], k) + (if s[|s| - 1].senderId == k then [s[|s| - 1]] else [])
  }

  /** The distinct sender ids of `s` in order of first occurrence (the key order of `by_sender`). */
  function Senders(s: seq<Message>): seq<Option<int>> {
    if s == [] then []
    else
      var ks := Senders(s[..|s| - 1]);
      if s[|s| - 1].senderId in ks then ks else ks + [s[|s| - 1].senderId]
  }

  /** Every sender occurs in Senders, and nothing else does. */
  lemma {:induction false} SendersMembers(s: seq<Message>)
    ensures forall k :: k in Senders(s) <==> exists i :: 0 <= i < |s| && s[i].senderId == k
  {
    if s != [] {
      var p := s[..|s| - 1];
      SendersMembers(p);
      assert forall i :: 0 <= i < |p| ==> p[i] == s[i];
    }
  }

  /** Senders lists each sender once. */
  lemma {:induction false} SendersDistinct(s: seq<Message>)
    ensures Distinct(Senders(s))
  {
    if s != [] {
      SendersDistinct(s[..|s| - 1]);
    }
  }

  /** The time-sorted buckets of the senders `ks`, concatenated in the order of `ks`. */
  function Groups(s: seq<Message>, ks: seq<Option<int>>): seq<Message> {
    if ks == [] then []
    else Groups(s, ks[..|ks| - 1]) + SortByTime(FromSender(s, ks[|ks| - 1]))
  }

  /** The grouped order: senders by first occurrence, each sender's messages stably time-sorted. */
  function GroupBySender(s: seq<Message>): seq<Message> {
    Groups(s, Senders(s))
  }

  /** The first loop of `sort_messages`: fills the `by_sender` dictionary and records its key order. */
  method BucketBySender(messages: seq<Message>) returns (bySender: map<Option<int>, seq<Message>>, order: seq<Option<int>>)
    ensures order == Senders(messages)
    ensures forall k :: k in bySender <==> k in order
    ensures forall k :: k in bySender ==> bySender[k] == FromSender(messages, k)
  {
    bySender, order := map[], [];
    var i := 0;
    while i < |messages|
      invariant 0 <= i <= |messages|
      invariant order == Senders(messages[..i])
      invariant forall k :: k in bySender <==> k in order
      invariant forall k :: k in bySender ==> bySender[k] == FromSender(messages[..i], k)
    {
      var m := messages[i];
      assert messages[..i + 1][..i] == messages[..i] && messages[..i + 1][i] == m;
      assert forall k :: FromSender(messages[..i + 1], k) == FromSender(messages[..i], k) + (if m.senderId == k then [m] else []);
      FromSenderNonEmpty(messages[..i], m.senderId);
      if m.senderId !in bySender {
        bySender := bySender[m.senderId := []];
        order := order + [m.senderId];
      }
      bySender := bySender[m.senderId := bySender[m.senderId] + [m]];
      i := i + 1;
    }
    assert messages[..i] == messages;
  }

  /** `sort_messages`. */
  method SortMessages(messages: seq<Message>, chronological: bool) returns (result: seq<Message>)
    ensures chronological ==> result == SortByTime(messages)
    ensures !chronological ==> result == GroupBySender(messages)
  {
    if chronological {
      return SortByTime(messages);
    }
    var bySender, order := BucketBySender(messages);
    result := [];
    var j := 0;
    while j < |order|
      invariant 0 <= j <= |order|
      invariant result == Groups(messages, order[..j])
    {
      assert order[..j + 1][..j] == order[..j];
      result := result + SortByTime(bySender[order[j]]);
      j := j + 1;
    }
    assert order[..j] == order;
  }

  lemma {:induction false} FromSenderAppend(a: seq<Message>, b: seq<Message>, k: Option<int>)
    ensures FromSender(a + b, k) == FromSender(a, k) + FromSender(b, k)
    decreases |b|
  {
    if b == [] {
      assert a + b == a;
    } else {
      var b' := b[..|b| - 1];
      assert (a + b)[..|a + b| - 1] == a + b';
      FromSenderAppend(a, b', k);
    }
  }

  lemma {:induction false} FromSenderCount(s: seq<Message>, k: Option<int>, x: Message)
    ensures multiset(FromSender(s, k))[x] == if x.senderId == k then multiset(s)[x] else 0
  {
    if s != [] {
      FromSenderCount(s[..|s| - 1], k, x);
      assert s == s[..|s| - 1] + [s[|s| - 1]];
    }
  }

  lemma FromSenderMembers(s: seq<Message>, k: Option<int>)
    ensures forall x :: x in FromSender(s, k) <==> x in s && x.senderId == k
  {
    forall x ensures x in FromSender(s, k) <==> x in s && x.senderId == k {
      FromSenderCount(s, k, x);
      assert x in FromSender(s, k) <==> x in multiset(FromSender(s, k));
    }
  }

  lemma {:induction false} FromSenderOfOneSender(s: seq<Message>, k: Option<int>)
    requires forall i :: 0 <= i < |s| ==> s[i].senderId == k
    ensures FromSender(s, k) == s
  {
    if s != [] {
      FromSenderOfOneSender(s[..|s| - 1], k);
      assert s == s[..|s| - 1] + [s[|s| - 1]];
    }
  }

  lemma {:induction false} FromSenderOfOtherSenders(s: seq<Message>, k: Option<int>)
    requires forall i :: 0 <= i < |s| ==> s[i].senderId != k
    ensures FromSender(s, k) == []
  {
    if s != [] {
      FromSenderOfOtherSenders(s[..|s| - 1], k);
    }
  }

  /** A sender has a non-empty bucket exactly when it sent some message. */
  lemma FromSenderNonEmpty(s: seq<Message>, k: Option<int>)
    ensures FromSender(s, k) != [] <==> k in Senders(s)
  {
    SendersMembers(s);
    FromSenderMembers(s, k);
    if k in Senders(s) {
      var i :| 0 <= i < |s| && s[i].senderId == k;
      assert s[i] in FromSender(s, k);
    }
    if FromSender(s, k) != [] {
      var x := FromSender(s, k)[0];
      assert x in FromSender(s, k);
      var i :| 0 <= i < |s| && s[i] == x;
      assert s[i].senderId == k;
    }
  }

  lemma SortedBucketSender(s: seq<Message>, k: Option<int>)
    ensures forall i :: 0 <= i < |SortByTime(FromSender(s, k))| ==> SortByTime(FromSender(s, k))[i].senderId == k
  {
    var b := SortByTime(FromSender(s, k));
    SortByTimePermutes(FromSender(s, k));
    FromSenderMembers(s, k);
    forall i | 0 <= i < |b| ensures b[i].senderId == k {
      assert b[i] in multiset(b);
    }
  }

  lemma {:induction false} GroupsCount(s: seq<Message>, ks: seq<Option<int>>, x: Message)
    requires Distinct(ks)
    ensures multiset(Groups(s, ks))[x] == if x.senderId in ks then multiset(s)[x] else 0
  {
    if ks != [] {
      var ks', k := ks[..|ks| - 1], ks[|ks| - 1];
      assert ks == ks' + [k];
      GroupsCount(s, ks', x);
      SortByTimePermutes(FromSender(s, k));
      FromSenderCount(s, k, x);
    }
  }

  /** The grouped order is a rearrangement of the input. */
  lemma GroupBySenderPermutes(s: seq<Message>)
    ensures multiset(GroupBySender(s)) == multiset(s)
  {
    SendersDistinct(s);
    SendersMembers(s);
    forall x ensures multiset(GroupBySender(s))[x] == multiset(s)[x] {
      GroupsCount(s, Senders(s), x);
      if x in s {
        var i :| 0 <= i < |s| && s[i] == x;
      }
    }
  }

  lemma GroupsSenders(s: seq<Message>, ks: seq<Option<int>>)
    requires Distinct(ks)
    ensures forall i :: 0 <= i < |Groups(s, ks)| ==> Groups(s, ks)[i].senderId in ks
  {
    var g := Groups(s, ks);
    forall i | 0 <= i < |g| ensures g[i].senderId in ks {
      GroupsCount(s, ks, g[i]);
      assert g[i] in multiset(g);
    }
  }

  /** No sender's messages are split: between two messages of one sender there are only that sender's. */
  predicate Contiguous(r: seq<Message>) {
    forall i, j, l :: 0 <= i < j < l < |r| && r[i].senderId == r[l].senderId ==> r[j].senderId == r[i].senderId
  }

  lemma {:induction false} GroupsContiguous(s: seq<Message>, ks: seq<Option<int>>)
    requires Distinct(ks)
    ensures Contiguous(Groups(s, ks))
  {
    if ks != [] {
      var ks', k := ks[..|ks| - 1], ks[|ks| - 1];
      var p, b := Groups(s, ks'), SortByTime(FromSender(s, k));
      var r := p + b;
      GroupsContiguous(s, ks');
      GroupsSenders(s, ks');
      SortedBucketSender(s, k);
      assert k !in ks';
      forall i, j, l | 0 <= i < j < l < |r| && r[i].senderId == r[l].senderId
        ensures r[j].senderId == r[i].senderId
      {
        if l < |p| {
          assert r[i] == p[i] && r[j] == p[j] && r[l] == p[l];
        } else if i >= |p| {
          assert r[i] == b[i - |p|] && r[j] == b[j - |p|];
        } else {
          assert false;
        }
      }
    }
  }

  /** Messages of one sender are never interleaved with another sender's. */
  lemma GroupBySenderContiguous(s: seq<Message>)
    ensures Contiguous(GroupBySender(s))
  {
    SendersDistinct(s);
    GroupsContiguous(s, Senders(s));
  }

  lemma {:induction false} GroupsFromSender(s: seq<Message>, ks: seq<Option<int>>, k: Option<int>)
    requires Distinct(ks)
    ensures FromSender(Groups(s, ks), k) == if k in ks then SortByTime(FromSender(s, k)) else []
  {
    if ks != [] {
      var ks', k' := ks[..|ks| - 1], ks[|ks| - 1];
      var p, b := Groups(s, ks'), SortByTime(FromSender(s, k'));
      assert ks == ks' + [k'];
      assert Distinct(ks') && k' !in ks' by {
        DistinctSplit(ks);
      }
      GroupsFromSender(s, ks', k);
      FromSenderAppend(p, b, k);
      SortedBucketSender(s, k');
      if k == k' {
        FromSenderOfOneSender(b, k);
        calc {
          FromSender(Groups(s, ks), k);
          FromSender(p, k) + FromSender(b, k);
          [] + b;
          b;
        }
      } else {
        FromSenderOfOtherSenders(b, k);
        calc {
          FromSender(Groups(s, ks), k);
          FromSender(p, k) + FromSender(b, k);
          FromSender(p, k) + [];
          FromSender(p, k);
        }
      }
    }
  }

  /** Cutting a sequence in two and joining the halves gives it back. */
  lemma SplitAt<T>(s: seq<T>, n: nat)
    requires n <= |s|
    ensures s[..n] + s[n..] == s
  {
  }

  /** A distinct sequence without its last element is distinct and does not hold that element. */
  lemma DistinctSplit<T>(ks: seq<T>)
    requires ks != [] && Distinct(ks)
    ensures Distinct(ks[..|ks| - 1]) && ks[|ks| - 1] !in ks[..|ks| - 1]
  {
  }

  /** Each sender's messages come out stably time-sorted (so they form a sorted, stable run). */
  lemma GroupBySenderPerSender(s: seq<Message>, k: Option<int>)
    ensures FromSender(GroupBySender(s), k) == SortByTime(FromSender(s, k))
  {
    SendersDistinct(s);
    GroupsFromSender(s, Senders(s), k);
    FromSenderNonEmpty(s, k);
  }

  lemma {:induction false} SendersAppendBlock(p: seq<Message>, b: seq<Message>, k: Option<int>)
    requires b != [] && forall i :: 0 <= i < |b| ==> b[i].senderId == k
    requires k !in Senders(p)
    ensures Senders(p + b) == Senders(p) + [k]
    decreases |b|
  {
    var b' := b[..|b| - 1];
    assert (p + b)[..|p + b| - 1] == p + b';
    if b' == [] {
      assert p + b' == p;
    } else {
      SendersAppendBlock(p, b', k);
    }
  }

  lemma {:induction false} GroupsSendersOrder(s: seq<Message>, ks: seq<Option<int>>)
    requires Distinct(ks)
    requires forall k :: k in ks ==> FromSender(s, k) != []
    ensures Senders(Groups(s, ks)) == ks
  {
    if ks != [] {
      var ks', k := ks[..|ks| - 1], ks[|ks| - 1];
      var p, b := Groups(s, ks'), SortByTime(FromSender(s, k));
      assert ks == ks' + [k];
      GroupsSendersOrder(s, ks');
      SortByTimePermutes(FromSender(s, k));
      SortedBucketSender(s, k);
      SendersAppendBlock(p, b, k);
    }
  }

  /** Groups appear in order of each sender's first message in the input. */
  lemma GroupBySenderOrder(s: seq<Message>)
    ensures Senders(GroupBySender(s)) == Senders(s)
  {
    forall k | k in Senders(s) ensures FromSender(s, k) != [] {
      FromSenderNonEmpty(s, k);
    }
    SendersDistinct(s);
    GroupsSendersOrder(s, Senders(s));
  }

  // =====================================================================
  // Keyword filter: `filter_by_keywords`
  // =====================================================================

  /** `msg.get('text') or ''`. */
  function TextOf(m: Message): string {
    m.text.GetOr("")
  }

  /** Some keyword, lower-cased, occurs in the lower-cased text. */
  predicate MatchesAny(m: Message, keywords: seq<string>) {
    exists k :: 0 <= k < |keywords| && Contains(Lower(TextOf(m)), Lower(keywords[k]))
  }

  /** The messages of `s` that match, in input order. */
  function Matching(s: seq<Message>, keywords: seq<string>): seq<Message> {
    if s == [] then []
    else Matching(s[..|s| - 1], keywords) + (if MatchesAny(s[|s| - 1], keywords) then [s[|s| - 1]] else [])
  }

  /** The full function: an empty keyword list (Python's None or []) filters nothing. */
  function KeywordFilter(s: seq<Message>, keywords: seq<string>): seq<Message> {
    if keywords == [] then s else Matching(s, keywords)
  }

  /** `filter_by_keywords`. */
  method FilterByKeywords(messages: seq<Message>, keywords: seq<string>) returns (filtered: seq<Message>)
    ensures keywords == [] ==> filtered == messages
    ensures keywords != [] ==> filtered == Matching(messages, keywords)
  {
    if keywords == [] {
      return messages;
    }
    var lowered := seq(|keywords|, i requires 0 <= i < |keywords| => Lower(keywords[i]));
    filtered := [];
    var i := 0;
    while i < |messages|
      invariant 0 <= i <= |messages|
      invariant filtered == Matching(messages[..i], keywords)
    {
      var msg := messages[i];
      var text := Lower(TextOf(msg));
      var hit := exists k :: 0 <= k < |lowered| && Contains(text, lowered[k]);
      if hit {
        var k :| 0 <= k < |lowered| && Contains(text, lowered[k]);
        assert Contains(Lower(TextOf(msg)), Lower(keywords[k]));
      } else {
        forall k | 0 <= k < |keywords| ensures !Contains(Lower(TextOf(msg)), Lower(keywords[k])) {
          assert lowered[k] == Lower(keywords[k]);
        }
      }
      assert hit == MatchesAny(msg, keywords);
      assert messages[..i + 1][..i] == messages[..i];
      if hit {
        filtered := filtered + [msg];
      }
      i := i + 1;
    }
    assert messages[..i] == messages;
  }

  /** Each message is kept as often as it occurs when it matches, and dropped otherwise. */
  lemma {:induction false} MatchingCount(s: seq<Message>, keywords: seq<string>, x: Message)
    ensures multiset(Matching(s, keywords))[x] == if MatchesAny(x, keywords) then multiset(s)[x] else 0
  {
    if s != [] {
      MatchingCount(s[..|s| - 1], keywords, x);
      assert s == s[..|s| - 1] + [s[|s| - 1]];
    }
  }

  /** Only messages of the input that match are kept. */
  lemma MatchingMembers(s: seq<Message>, keywords: seq<string>)
    ensures forall x :: x in Matching(s, keywords) ==> x in s && MatchesAny(x, keywords)
  {
    forall x | x in Matching(s, keywords) ensures x in s && MatchesAny(x, keywords) {
      MatchingCount(s, keywords, x);
      assert x in multiset(Matching(s, keywords));
    }
  }

  /** The filter keeps input order: it distributes over concatenation. */
  lemma {:induction false} MatchingAppend(a: seq<Message>, b: seq<Message>, keywords: seq<string>)
    ensures Matching(a + b, keywords) == Matching(a, keywords) + Matching(b, keywords)
    decreases |b|
  {
    if b == [] {
      assert a + b == a;
    } else {
      var b' := b[..|b| - 1];
      assert (a + b)[..|a + b| - 1] == a + b';
      MatchingAppend(a, b', keywords);
    }
  }

  /** A keyword list containing "" keeps every message. */
  lemma MatchingEmptyKeyword(s: seq<Message>, keywords: seq<string>)
    requires "" in keywords
    ensures Matching(s, keywords) == s
  {
    forall i | 0 <= i < |s| ensures MatchesAny(s[i], keywords) {
      EmptyKeywordMatches(s[i], keywords);
    }
    MatchingOfMatching(s, keywords);
  }

  /** The empty keyword occurs in every text. */
  lemma EmptyKeywordMatches(msg: Message, keywords: seq<string>)
    requires "" in keywords
    ensures MatchesAny(msg, keywords)
  {
    var k :| 0 <= k < |keywords| && keywords[k] == "";
    ContainsEmpty(Lower(TextOf(msg)));
    assert Lower(keywords[k]) == "";
  }

  lemma {:induction false} MatchingOfMatching(s: seq<Message>, keywords: seq<string>)
    requires forall i :: 0 <= i < |s| ==> MatchesAny(s[i], keywords)
    ensures Matching(s, keywords) == s
  {
    if s != [] {
      var p, x := s[..|s| - 1], s[|s| - 1];
      assert forall i :: 0 <= i < |p| ==> MatchesAny(p[i], keywords) by {
        forall i | 0 <= i < |p| ensures MatchesAny(p[i], keywords) {
          assert p[i] == s[i];
        }
      }
      MatchingOfMatching(p, keywords);
      assert MatchesAny(x, keywords);
      calc {
        Matching(s, keywords);
        Matching(p, keywords) + [x];
        p + [x];
        { SplitAt(s, |s| - 1); }
        s;
      }
    }
  }

  /** Filtering twice with the same keywords is filtering once. */
  lemma KeywordFilterIdempotent(s: seq<Message>, keywords: seq<string>)
    ensures KeywordFilter(KeywordFilter(s, keywords), keywords) == KeywordFilter(s, keywords)
  {
    if keywords != [] {
      var r := Matching(s, keywords);
      MatchingMembers(s, keywords);
      forall i | 0 <= i < |r| ensures MatchesAny(r[i], keywords) {
        assert r[i] in r;
      }
      MatchingOfMatching(r, keywords);
    }
  }

  /** The filter ignores the case of the keywords. */
  lemma KeywordFilterCaseInsensitive(s: seq<Message>, keywords: seq<string>)
    ensures KeywordFilter(s, seq(|keywords|, i requires 0 <= i < |keywords| => Lower(keywords[i])))
         == KeywordFilter(s, keywords)
  {
    var lowered := seq(|keywords|, i requires 0 <= i < |keywords| => Lower(keywords[i]));
    if keywords != [] {
      forall m ensures MatchesAny(m, lowered) == MatchesAny(m, keywords) {
        forall k | 0 <= k < |keywords| ensures Lower(lowered[k]) == Lower(keywords[k]) {
          LowerIdempotent(keywords[k]);
        }
      }
      MatchingSameMatches(s, lowered, keywords);
    }
  }

  lemma {:induction false} MatchingSameMatches(s: seq<Message>, k1: seq<string>, k2: seq<string>)
    requires forall m :: MatchesAny(m, k1) == MatchesAny(m, k2)
    ensures Matching(s, k1) == Matching(s, k2)
  {
    if s != [] {
      MatchingSameMatches(s[..|s| - 1], k1, k2);
    }
  }
}
