/**
 * The dashboard: the notification dropdown (mark all read, delete one, the
 * unread badge), the debate-room search and filters, and the manual entry of
 * an opponent by name in the matching modal.
 */
module Dashboard {
  import Seqs
  import Text

  datatype Notification = Notification(
    id: int, kind: string, title: string, content: string, time: string, read: bool)

  /** `markAllAsRead`: every notification, in place, with its read flag set. */
  function MarkAllAsRead(ns: seq<Notification>): (r: seq<Notification>)
    ensures |r| == |ns|
    ensures forall k :: 0 <= k < |ns| ==> r[k] == ns[k].(read := true)
  {
    Seqs.Map(ns, (n: Notification) => n.(read := true))
  }

  /** The notifications still unread. */
  function Unread(ns: seq<Notification>): seq<Notification> {
    Seqs.Filter(ns, (n: Notification) => !n.read)
  }

  /** The red dot on the bell: shown while some notification is unread. */
  predicate BadgeShown(ns: seq<Notification>) {
    |Unread(ns)| > 0
  }

  /** The badge is shown exactly when some notification is unread. */
  lemma BadgeIff(ns: seq<Notification>)
    ensures BadgeShown(ns) <==> exists k :: 0 <= k < |ns| && !ns[k].read
  {
    var u := Unread(ns);
    Seqs.FilterMembers(ns, (n: Notification) => !n.read);
    if BadgeShown(ns) {
      assert u[0] in u;
      var k :| 0 <= k < |ns| && ns[k] == u[0];
    }
    if exists k :: 0 <= k < |ns| && !ns[k].read {
      var k :| 0 <= k < |ns| && !ns[k].read;
      assert ns[k] in u;
    }
  }

  /** After marking all as read the badge goes away, and marking again changes nothing. */
  lemma MarkAllAsReadClearsBadge(ns: seq<Notification>)
    ensures !BadgeShown(MarkAllAsRead(ns))
    ensures MarkAllAsRead(MarkAllAsRead(ns)) == MarkAllAsRead(ns)
  {
    BadgeIff(MarkAllAsRead(ns));
  }

  /** `deleteNotification(id)`: every notification with that id leaves the list; the others keep their order. */
  function DeleteNotification(ns: seq<Notification>, id: int): (r: seq<Notification>)
    ensures forall n :: n in r <==> n in ns && n.id != id
    ensures forall n :: multiset(r)[n] == if n.id != id then multiset(ns)[n] else 0
    ensures Seqs.IsSubsequence(r, ns)
  {
    Seqs.FilterMembers(ns, (n: Notification) => n.id != id);
    Seqs.FilterMultiset(ns, (n: Notification) => n.id != id);
    Seqs.FilterIsSubsequence(ns, (n: Notification) => n.id != id);
    Seqs.Filter(ns, (n: Notification) => n.id != id)
  }

  /** Deleting an id that no notification carries leaves the list as it is. */
  lemma DeleteUnknownIsNoop(ns: seq<Notification>, id: int)
    requires forall k :: 0 <= k < |ns| ==> ns[k].id != id
    ensures DeleteNotification(ns, id) == ns
  {
    Seqs.FilterAllPass(ns, (n: Notification) => n.id != id);
  }

  /** With unique ids, deleting a present id removes exactly one notification. */
  lemma DeletePresentRemovesOne(ns: seq<Notification>, k: nat)
    requires k < |ns|
    requires forall i, j :: 0 <= i < j < |ns| ==> ns[i].id != ns[j].id
    ensures DeleteNotification(ns, ns[k].id) == Seqs.RemoveAt(ns, k)
  {
    var id := ns[k].id;
    Seqs.FilterRejectingOnlyAt(ns, k, (n: Notification) => n.id != id);
  }

  /** Deleting and marking as read commute. */
  lemma DeleteThenMarkCommute(ns: seq<Notification>, id: int)
    ensures MarkAllAsRead(DeleteNotification(ns, id)) == DeleteNotification(MarkAllAsRead(ns), id)
  {
    Seqs.FilterMapCommute(ns, (n: Notification) => n.(read := true), (n: Notification) => n.id != id);
  }

  datatype Participant = Participant(name: string, ratingTenths: nat, avatar: string)

  datatype Room = Room(
    id: int,
    name: string,
    topic: string,
    format: string,
    difficulty: string,
    capacity: nat,
    participants: seq<Participant>,
    startTime: string,
    status: string)

  /** The two selects above the room list; `"all"` disables a select. */
  datatype RoomFilter = RoomFilter(format: string, difficulty: string)

  const InitialRoomFilter := RoomFilter("all", "all")

  /** A case-insensitive search hit on the room's name or topic. */
  predicate MatchesSearch(room: Room, query: string) {
    Text.ContainsIgnoringCase(room.name, query) || Text.ContainsIgnoringCase(room.topic, query)
  }

  /** The test `filteredRooms` applies to each room. */
  predicate RoomVisible(room: Room, query: string, filter: RoomFilter) {
    && MatchesSearch(room, query)
    && (filter.format == "all" || room.format == filter.format)
    && (filter.difficulty == "all" || room.difficulty == filter.difficulty)
  }

  /** `filteredRooms`: the rooms that pass the search box and both selects, in list order. */
  function FilteredRooms(rooms: seq<Room>, query: string, filter: RoomFilter): (r: seq<Room>)
    ensures forall room :: room in r <==> room in rooms && RoomVisible(room, query, filter)
    ensures forall room :: multiset(r)[room] == if RoomVisible(room, query, filter) then multiset(rooms)[room] else 0
    ensures Seqs.IsSubsequence(r, rooms)
  {
    Seqs.FilterMembers(rooms, (room: Room) => RoomVisible(room, query, filter));
    Seqs.FilterMultiset(rooms, (room: Room) => RoomVisible(room, query, filter));
    Seqs.FilterIsSubsequence(rooms, (room: Room) => RoomVisible(room, query, filter));
    Seqs.Filter(rooms, (room: Room) => RoomVisible(room, query, filter))
  }

  /** With an empty search box and both selects on "all", every room is listed. */
  lemma InitialFiltersShowAll(rooms: seq<Room>)
    ensures FilteredRooms(rooms, "", InitialRoomFilter) == rooms
  {
    forall k | 0 <= k < |rooms|
      ensures RoomVisible(rooms[k], "", InitialRoomFilter)
    {
      Text.ContainsIgnoringCaseEmpty(rooms[k].name);
    }
    Seqs.FilterAllPass(rooms, (room: Room) => RoomVisible(room, "", InitialRoomFilter));
  }

  /** Typing the query in upper case lists the same rooms. */
  lemma SearchIgnoresCase(rooms: seq<Room>, query: string, filter: RoomFilter)
    ensures FilteredRooms(rooms, Text.ToUpper(query), filter) == FilteredRooms(rooms, query, filter)
  {
    forall k | 0 <= k < |rooms|
      ensures RoomVisible(rooms[k], Text.ToUpper(query), filter) == RoomVisible(rooms[k], query, filter)
    {
      Text.ContainsIgnoringCaseUpper(rooms[k].name, query);
      Text.ContainsIgnoringCaseUpper(rooms[k].topic, query);
    }
    Seqs.FilterCongruent(rooms, (room: Room) => RoomVisible(room, Text.ToUpper(query), filter),
                         (room: Room) => RoomVisible(room, query, filter));
  }

  /** A row of the matching modal; the rating is kept in tenths (4.5 is 45). */
  datatype Opponent = Opponent(name: string, initials: string, ratingTenths: nat, wins: nat, debates: nat)

  /** `word[0]` of each word, joined: an empty word has no first character and adds nothing. */
  function FirstChars(words: seq<string>): (r: string)
    ensures |r| <= |words|
    ensures (forall k :: 0 <= k < |words| ==> |words[k]| > 0) ==>
              |r| == |words| && forall k :: 0 <= k < |words| ==> r[k] == words[k][0]
    decreases |words|
  {
    if |words| == 0 then ""
    else (if |words[0]| == 0 then "" else [words[0][0]]) + FirstChars(words[1..])
  }

  /** Whether a word has a first character. */
  predicate HasFirstChar(word: string) {
    |word| > 0
  }

  /** Empty words add nothing: the initials are those of the non-empty words alone. */
  lemma {:induction false} FirstCharsSkipsEmptyWords(words: seq<string>)
    ensures FirstChars(words) == FirstChars(Seqs.Filter(words, HasFirstChar))
    decreases |words|
  {
    if |words| > 0 {
      var rest := words[1..];
      FirstCharsSkipsEmptyWords(rest);
      assert words == [words[0]] + rest;
      Seqs.FilterCons(words[0], rest, HasFirstChar);
      if HasFirstChar(words[0]) {
        assert ([words[0]] + Seqs.Filter(rest, HasFirstChar))[1..] == Seqs.Filter(rest, HasFirstChar);
      }
    }
  }

  /** Removing one empty word from the list leaves the initials as they were. */
  lemma {:induction false} EmptyWordContributesNothing(words: seq<string>, k: nat)
    requires k < |words| && words[k] == ""
    ensures FirstChars(words) == FirstChars(words[..k] + words[k + 1..])
    decreases k
  {
    var without := words[..k] + words[k + 1..];
    if k == 0 {
      assert without == words[1..];
    } else {
      EmptyWordContributesNothing(words[1..], k - 1);
      assert without[0] == words[0];
      assert without[1..] == words[1..][..k - 1] + words[1..][k..];
    }
  }

  /**
   * The initials shown for a typed-in name: the first letters of the
   * space-separated words, upper-cased. A doubled, leading or trailing space
   * makes an empty word, whose `word[0]` is `undefined` and joins as "".
   */
  function Initials(name: string): (r: string)
    ensures var words := Seqs.Filter(Text.Split(name, ' '), HasFirstChar);
            |r| == |words| && forall k :: 0 <= k < |words| ==> |words[k]| > 0 && r[k] == Text.UpperChar(words[k][0])
  {
    var words := Text.Split(name, ' ');
    var kept := Seqs.Filter(words, HasFirstChar);
    FirstCharsSkipsEmptyWords(words);
    Seqs.FilterMembers(words, HasFirstChar);
    assert forall k :: 0 <= k < |kept| ==> kept[k] in kept;
    Text.ToUpper(FirstChars(words))
  }

  /** The words of " ann  lee ": the extra spaces make three empty words. */
  lemma ExtraSpacedWords(name: string)
    requires name == " ann  lee "
    ensures Text.Split(name, ' ') == ["", "ann", "", "lee", ""]
  {
    var words := ["", "ann", "", "lee", ""];
    assert Text.Join(words[3..], ' ') == "lee ";
    assert Text.Join(words[1..], ' ') == "ann  lee " by {
      assert words[1..][1..] == words[2..];
      assert words[2..][1..] == words[3..];
    }
    assert words == [""] + words[1..];
    Text.SplitJoin(words, ' ');
  }

  /** The non-empty words of " ann  lee ". */
  lemma ExtraSpacedNonEmptyWords(words: seq<string>)
    requires words == ["", "ann", "", "lee", ""]
    ensures Seqs.Filter(words, HasFirstChar) == ["ann", "lee"]
  {
    assert Seqs.Filter(words[3..], HasFirstChar) == ["lee"];
    assert Seqs.Filter(words[1..], HasFirstChar) == ["ann", "lee"];
  }

  /** A name with extra spaces around and between its words: " ann  lee " gives "AL". */
  lemma InitialsSkipExtraSpaces(name: string)
    requires name == " ann  lee "
    ensures Initials(name) == "AL"
  {
    ExtraSpacedWords(name);
    ExtraSpacedNonEmptyWords(Text.Split(name, ' '));
    var r := Initials(name);
    assert |r| == 2 && r[0] == Text.UpperChar('a') && r[1] == Text.UpperChar('l');
  }

  /** A name made of non-empty words joined by single spaces gets one initial per word. */
  lemma InitialsOfWords(words: seq<string>)
    requires |words| >= 1
    requires forall k :: 0 <= k < |words| ==> |words[k]| > 0 && ' ' !in words[k]
    ensures var r := Initials(Text.Join(words, ' '));
            |r| == |words| && forall k :: 0 <= k < |words| ==> r[k] == Text.UpperChar(words[k][0])
  {
    Text.SplitJoin(words, ' ');
  }

  /** The manual-entry input and the opponents listed in the matching modal. */
  datatype MatchingState = MatchingState(input: string, opponents: seq<Opponent>)

  /**
   * `handleAddManualOpponent`: a blank input does nothing; otherwise the name
   * as typed is appended with its initials, a 4.5 rating, `winsRoll + 50`
   * wins and `debatesRoll + 100` debates, and the input is cleared. The rolls
   * are `Math.floor(Math.random() * 100)` and `Math.floor(Math.random() * 50)`.
   */
  function HandleAddManualOpponent(state: MatchingState, winsRoll: nat, debatesRoll: nat): (r: MatchingState)
    requires winsRoll < 100 && debatesRoll < 50
    ensures Text.Trim(state.input) == "" ==> r == state
    ensures Text.Trim(state.input) != "" ==>
              && r.input == ""
              && |r.opponents| == |state.opponents| + 1
              && r.opponents[..|state.opponents|] == state.opponents
              && r.opponents[|state.opponents|].name == state.input
              && r.opponents[|state.opponents|].initials == Initials(state.input)
              && r.opponents[|state.opponents|].ratingTenths == 45
              && 50 <= r.opponents[|state.opponents|].wins < 150
              && 100 <= r.opponents[|state.opponents|].debates < 150
  {
    if Text.Trim(state.input) != "" then
      var added := Opponent(state.input, Initials(state.input), 45, winsRoll + 50, debatesRoll + 100);
      assert (state.opponents + [added])[..|state.opponents|] == state.opponents;
      MatchingState("", state.opponents + [added])
    else state
  }

  /** The list grows exactly when the input has a non-blank character. */
  lemma AddManualOpponentBlankIff(state: MatchingState, winsRoll: nat, debatesRoll: nat)
    requires winsRoll < 100 && debatesRoll < 50
    ensures |HandleAddManualOpponent(state, winsRoll, debatesRoll).opponents| == |state.opponents|
            <==> forall k :: 0 <= k < |state.input| ==> Text.IsWhitespace(state.input[k])
  {
    Text.TrimEmptyIff(state.input);
  }
}
