/**
 * The layout of `react/src/pages/Admin.js`: the side menu, whose links
 * depend on the signed-in user's role, and the notification list built
 * from the activity log.
 */
module Admin {
  import opened Wrappers
  import opened Lists
  import opened Text
  import Meeting

  /** The user record kept by the browser. */
  datatype User = User(name: string, role: string)

  /** The signed-in user, or the stand-in used when none is stored. */
  function CurrentUser(stored: Option<User>): (user: User)
    ensures stored.None? ==> user.role == "guest" && user.name == "Admin"
    ensures stored.Some? ==> user == stored.value
  {
    stored.GetOr(User("Admin", "guest"))
  }

  /** The entries of the side menu. */
  datatype Link = Dashboard | ForumLink | Meetings | Documents | Students | Tutors | Users

  /** A menu entry rendered only when its condition holds. */
  function Shown(show: bool, link: Link): (links: seq<Link>)
    ensures forall l :: l in links <==> show && l == link
    ensures |links| <= 1
  {
    if show then [link] else []
  }

  /** The side menu in display order; each guarded entry is shown exactly for the roles its condition names. */
  function Menu(role: string): (links: seq<Link>)
    ensures Dashboard in links && ForumLink in links && Documents in links
    ensures Meetings in links <==> role == "tutor" || role == "staff" || role == "admin"
    ensures Students in links <==> role == "student" || role == "staff" || role == "admin"
    ensures Tutors in links <==> role == "tutor" || role == "staff" || role == "admin"
    ensures Users in links <==> role == "staff" || role == "admin"
  {
    var staffLike := role == "staff" || role == "admin";
    [Dashboard, ForumLink]
    + Shown(role == "tutor" || staffLike, Meetings)
    + [Documents]
    + Shown(role == "student" || staffLike, Students)
    + Shown(role == "tutor" || staffLike, Tutors)
    + Shown(staffLike, Users)
  }

  /**
   * The whole menu for each kind of role: staff and administrators see every
   * entry, tutors and students their own pages besides the common three, and
   * any other role, the stand-in guest included, only the common three.
   */
  lemma MenuByRole(role: string)
    ensures role == "staff" || role == "admin" ==>
      Menu(role) == [Dashboard, ForumLink, Meetings, Documents, Students, Tutors, Users]
    ensures role == "tutor" ==> Menu(role) == [Dashboard, ForumLink, Meetings, Documents, Tutors]
    ensures role == "student" ==> Menu(role) == [Dashboard, ForumLink, Documents, Students]
    ensures role !in {"staff", "admin", "tutor", "student"} ==> Menu(role) == [Dashboard, ForumLink, Documents]
  {
  }

  /** Without a stored user the menu holds only the three entries everyone sees. */
  lemma GuestMenu()
    ensures Menu(CurrentUser(None).role) == [Dashboard, ForumLink, Documents]
  {
    MenuByRole("guest");
  }

  /**
   * Of the users who reach the meeting list from the menu, exactly staff
   * and administrators are offered its Delete button: a tutor sees the list
   * but cannot delete.
   */
  lemma MeetingDeleteFromMenu(role: string)
    requires Meetings in Menu(role)
    ensures Meeting.CanDeleteMeetings(role) <==> role == "staff" || role == "admin"
  {
  }

  /** One row of the activity log. */
  datatype LogEntry = LogEntry(table: string, action: string, time: string, message: string)

  /** One entry of the notification drop-down: a heading and the raw log message. */
  datatype Notification = Notification(message: string, detail: string)

  /** `${table.toUpperCase()} ${action.toUpperCase()} - ${time}`. */
  function Heading(e: LogEntry): (heading: string)
    ensures |heading| == |e.table| + |e.action| + |e.time| + 4
  {
    Upper(e.table) + " " + Upper(e.action) + " - " + e.time
  }

  /** The notifications for a fetched log, one per entry and in log order. */
  function Notifications(log: seq<LogEntry>): (notes: seq<Notification>)
    ensures |notes| == |log|
    ensures forall i :: 0 <= i < |log| ==> notes[i] == Notification(Heading(log[i]), log[i].message)
  {
    seq(|log|, i requires 0 <= i < |log| => Notification(Heading(log[i]), log[i].message))
  }

  /** The first position of `c` in `s`. */
  function IndexOf(s: string, c: char): (r: Option<nat>)
    ensures r.Some? ==> r.value < |s| && s[r.value] == c && c !in s[..r.value]
    ensures r.None? ==> c !in s
  {
    if s == [] then None
    else if s[0] == c then Some(0)
    else match IndexOf(s[1..], c)
      case None => None
      case Some(k) => assert s[..k + 1] == [s[0]] + s[1..][..k]; Some(k + 1)
  }

  /** A heading read back as its upper-cased table, upper-cased action and time. */
  datatype HeadingParts = HeadingParts(table: string, action: string, time: string)

  /** Reads a heading back: the words before the first two spaces, then `- ` and the time. */
  function ParseHeading(heading: string): Option<HeadingParts> {
    match IndexOf(heading, ' ')
    case None => None
    case Some(i) =>
      var rest := heading[i + 1..];
      match IndexOf(rest, ' ')
      case None => None
      case Some(j) =>
        var tail := rest[j + 1..];
        if |tail| >= 2 && tail[..2] == "- " then Some(HeadingParts(heading[..i], rest[..j], tail[2..])) else None
  }

  /** A character that is not a space is not upper-cased into one. */
  lemma UpperKeepsNoSpace(s: string)
    requires ' ' !in s
    ensures ' ' !in Upper(s)
  {
    UpperSpec(s);
    forall i | 0 <= i < |s| ensures Upper(s)[i] != ' ' {
      assert s[i] in s;
    }
  }

  /** A word with no space, followed by a space: that space is the first one. */
  lemma FirstSpaceAfterWord(word: string, rest: string)
    requires ' ' !in word
    ensures IndexOf(word + " " + rest, ' ') == Some(|word|)
  {
    var s := word + " " + rest;
    assert s[|word|] == ' ';
  }

  /**
   * As long as the table and action names hold no space, a heading can be
   * read back into the upper-cased table, the upper-cased action and the
   * time it was built from.
   */
  lemma HeadingRoundTrip(e: LogEntry)
    requires ' ' !in e.table && ' ' !in e.action
    ensures ParseHeading(Heading(e)) == Some(HeadingParts(Upper(e.table), Upper(e.action), e.time))
  {
    var t, a := Upper(e.table), Upper(e.action);
    UpperKeepsNoSpace(e.table);
    UpperKeepsNoSpace(e.action);
    var h := Heading(e);
    assert h == t + " " + (a + " - " + e.time);
    FirstSpaceAfterWord(t, a + " - " + e.time);
    var rest := h[|t| + 1..];
    assert rest == a + " " + ("- " + e.time);
    FirstSpaceAfterWord(a, "- " + e.time);
    assert h[..|t|] == t;
    assert rest[..|a|] == a;
    var tail := rest[|a| + 1..];
    assert tail == "- " + e.time;
    assert tail[2..] == e.time;
  }

  /**
   * Every notification of a fetched log reads back as its entry's
   * upper-cased table, upper-cased action and time, and carries the entry's
   * message as its detail, as long as table and action names hold no space.
   */
  lemma NotificationsRoundTrip(log: seq<LogEntry>, i: int)
    requires 0 <= i < |log|
    requires ' ' !in log[i].table && ' ' !in log[i].action
    ensures |Notifications(log)| == |log|
    ensures ParseHeading(Notifications(log)[i].message) == Some(HeadingParts(Upper(log[i].table), Upper(log[i].action), log[i].time))
    ensures Notifications(log)[i].detail == log[i].message
  {
    HeadingRoundTrip(log[i]);
  }

  /** The layout's notification list. */
  class Layout {
    var notifications: seq<Notification>

    constructor ()
      ensures notifications == []
    {
      notifications := [];
    }

    /** One poll of the log: an array replaces the list, anything else leaves it as it was. */
    method Poll(response: ListState<LogEntry>)
      modifies this`notifications
      ensures notifications == if response.Items? then Notifications(response.items) else old(notifications)
    {
      if response.Items? {
        notifications := Notifications(response.items);
      }
    }
  }
}
