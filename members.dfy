/**
 * Member records (scraper/members.py): decoding a user's online status into
 * the `last_seen` text and building the member record from a participant.
 */
module Members {
  import opened Wrappers
  import opened Strings

  /** The status variants a Telegram user can carry; `OtherStatus` is any class not tested for. */
  datatype UserStatus =
    | Online
    | Offline(wasOnline: Option<string>)   // the moment last seen, already in ISO text
    | Recently
    | LastWeek
    | LastMonth
    | OtherStatus

  /** `_extract_last_seen`. */
  function LastSeen(status: Option<UserStatus>): (r: Option<string>)
    ensures status.None? <==> r.None?
    ensures status == Some(Online) ==> r == Some("online")
    ensures status.Some? && status.value.Offline? ==>
      r == Some(if status.value.wasOnline.Some? then status.value.wasOnline.value else "offline")
    ensures status == Some(Recently) ==> r == Some("recently")
    ensures status == Some(LastWeek) ==> r == Some("last_week")
    ensures status == Some(LastMonth) ==> r == Some("last_month")
    ensures status == Some(OtherStatus) ==> r == Some("hidden")
  {
    match status
    case None => None
    case Some(Online) => Some("online")
    case Some(Offline(was)) => Some(if was.Some? then was.value else "offline")
    case Some(Recently) => Some("recently")
    case Some(LastWeek) => Some("last_week")
    case Some(LastMonth) => Some("last_month")
    case Some(OtherStatus) => Some("hidden")
  }

  /** The kinds of status, without the Offline timestamp. */
  datatype StatusKind = KOnline | KOffline | KRecently | KLastWeek | KLastMonth | KHidden

  function KindOf(status: UserStatus): StatusKind {
    match status
    case Online => KOnline
    case Offline(_) => KOffline
    case Recently => KRecently
    case LastWeek => KLastWeek
    case LastMonth => KLastMonth
    case OtherStatus => KHidden
  }

  /** An ISO-8601 date-time text begins with the digits of the year. */
  predicate IsoLike(s: string) {
    s != [] && IsDigit(s[0])
  }

  /** Reads a `last_seen` cell back into the kind of status it came from. */
  function ClassifyLastSeen(cell: Option<string>): Option<StatusKind> {
    match cell
    case None => None
    case Some(s) =>
      if s == "online" then Some(KOnline)
      else if s == "offline" || IsoLike(s) then Some(KOffline)
      else if s == "recently" then Some(KRecently)
      else if s == "last_week" then Some(KLastWeek)
      else if s == "last_month" then Some(KLastMonth)
      else Some(KHidden)
  }

  /**
   * The `last_seen` text loses nothing but the status object itself: from it
   * the kind of status can be read back, provided an Offline timestamp is
   * ISO text.
   */
  lemma LastSeenDecodes(status: Option<UserStatus>)
    requires status.Some? && status.value.Offline? && status.value.wasOnline.Some?
             ==> IsoLike(status.value.wasOnline.value)
    ensures ClassifyLastSeen(LastSeen(status)) == if status.None? then None else Some(KindOf(status.value))
  {
  }

  /** A participant as the Telegram client yields it. */
  datatype TgUser = TgUser(
    id: int,
    username: Option<string>,
    firstName: Option<string>,
    lastName: Option<string>,
    phone: Option<string>,
    bot: Option<bool>,
    status: Option<UserStatus>,
    premium: Option<Option<bool>>)    // None: the object has no `premium` attribute; Some(v): it has one, holding v

  /** One exported member. `userId` is optional because merged input may lack it. */
  datatype Member = Member(
    userId: Option<int>,
    username: Option<string>,
    firstName: Option<string>,
    lastName: Option<string>,
    phone: Option<string>,
    isBot: Option<bool>,
    lastSeen: Option<string>,
    isPremium: Option<bool>,
    bio: Option<string>)

  /** The member record built in `scrape_members`; `bio` comes from a separate request. */
  function ToMember(user: TgUser, bio: Option<string>): (m: Member)
    ensures m.userId == Some(user.id)
    ensures m.username == user.username && m.firstName == user.firstName
    ensures m.lastName == user.lastName && m.phone == user.phone && m.isBot == user.bot
    ensures m.lastSeen == LastSeen(user.status)
    ensures user.premium.None? ==> m.isPremium == Some(false)
    ensures user.premium.Some? ==> m.isPremium == user.premium.value
    ensures m.bio == bio
  {
    Member(
      Some(user.id),
      user.username,
      user.firstName,
      user.lastName,
      user.phone,
      user.bot,
      LastSeen(user.status),
      if user.premium.Some? then user.premium.value else Some(false),
      bio)
  }
}
