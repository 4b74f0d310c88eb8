/**
 * A live debate room: the reaction counters, the microphone and camera
 * switches, and the side-panel tabs. The group room and the AI room declare
 * this state and these handlers identically, so one module models both.
 */
module DebateRoom {
  import opened Wrappers

  datatype Reaction = Likes | Dislikes | Stars

  datatype Reactions = Reactions(likes: nat, dislikes: nat, stars: nat) {
    /** `reactions[type]`. */
    function Get(t: Reaction): nat {
      match t
      case Likes => likes
      case Dislikes => dislikes
      case Stars => stars
    }
  }

  const InitialReactions := Reactions(24, 3, 12)

  /** The side-panel tabs. */
  datatype Tab = Chat | Arguments | Notes | Rules {
    /** The string `activeTab` holds for this tab. */
    function Name(): string {
      match this
      case Chat => "chat"
      case Arguments => "arguments"
      case Notes => "notes"
      case Rules => "rules"
    }
  }

  /** Reads an `activeTab` string back; only the four tab names are tabs. */
  function ParseTab(s: string): (r: Option<Tab>)
    ensures r.Some? ==> r.value.Name() == s
  {
    if s == "chat" then Some(Chat)
    else if s == "arguments" then Some(Arguments)
    else if s == "notes" then Some(Notes)
    else if s == "rules" then Some(Rules)
    else None
  }

  /** Every tab's name reads back as that tab, so no two tabs share a name. */
  lemma ParseTabName(t: Tab)
    ensures ParseTab(t.Name()) == Some(t)
  {
  }

  datatype Room = Room(
    isMuted: bool,
    isVideoOn: bool,
    currentSpeaker: string,
    timeRemaining: int,
    activeTab: Tab,
    showControls: bool,
    reactions: Reactions)

  /** The room as it opens: microphone on, camera on, the chat tab, the seeded counters. */
  const InitialRoom := Room(false, true, "Sarah Mitchell", 300, Chat, true, InitialReactions)

  /** `handleReaction(type)`: one more of that reaction; the other counters and the rest of the room stay. */
  function HandleReaction(room: Room, t: Reaction): (r: Room)
    ensures r.reactions.Get(t) == room.reactions.Get(t) + 1
    ensures forall u :: u != t ==> r.reactions.Get(u) == room.reactions.Get(u)
    ensures r.(reactions := room.reactions) == room
  {
    var c := room.reactions;
    var next := match t
      case Likes => c.(likes := c.likes + 1)
      case Dislikes => c.(dislikes := c.dislikes + 1)
      case Stars => c.(stars := c.stars + 1);
    room.(reactions := next)
  }

  /** The room after a series of reaction clicks. */
  function React(room: Room, ts: seq<Reaction>): Room
    decreases |ts|
  {
    if |ts| == 0 then room else React(HandleReaction(room, ts[0]), ts[1..])
  }

  /** After a series of clicks every counter has grown by the number of its clicks. */
  lemma {:induction false} ReactCounts(room: Room, ts: seq<Reaction>, u: Reaction)
    ensures React(room, ts).reactions.Get(u) == room.reactions.Get(u) + multiset(ts)[u]
    ensures React(room, ts).(reactions := room.reactions) == room
    decreases |ts|
  {
    if |ts| > 0 {
      ReactCounts(HandleReaction(room, ts[0]), ts[1..], u);
      assert ts == [ts[0]] + ts[1..];
      assert multiset(ts) == multiset{ts[0]} + multiset(ts[1..]);
    }
  }

  /** From the opening room, each counter shows its seeded value plus its own clicks. */
  lemma OpeningCounters(ts: seq<Reaction>)
    ensures React(InitialRoom, ts).reactions == Reactions(24 + multiset(ts)[Likes], 3 + multiset(ts)[Dislikes],
                                                         12 + multiset(ts)[Stars])
  {
    ReactCounts(InitialRoom, ts, Likes);
    ReactCounts(InitialRoom, ts, Dislikes);
    ReactCounts(InitialRoom, ts, Stars);
  }

  /** Reactions never take a counter down. */
  lemma CountersNeverDecrease(room: Room, ts: seq<Reaction>, u: Reaction)
    ensures React(room, ts).reactions.Get(u) >= room.reactions.Get(u)
  {
    ReactCounts(room, ts, u);
  }

  /** The microphone button: flips `isMuted` only. */
  function ToggleMute(room: Room): (r: Room)
    ensures r.isMuted == !room.isMuted
    ensures r.(isMuted := room.isMuted) == room
  {
    room.(isMuted := !room.isMuted)
  }

  /** The camera button: flips `isVideoOn` only. */
  function ToggleVideo(room: Room): (r: Room)
    ensures r.isVideoOn == !room.isVideoOn
    ensures r.(isVideoOn := room.isVideoOn) == room
  {
    room.(isVideoOn := !room.isVideoOn)
  }

  /** Each switch pressed twice restores the room, and the two switches commute. */
  lemma TogglesAreInvolutions(room: Room)
    ensures ToggleMute(ToggleMute(room)) == room
    ensures ToggleVideo(ToggleVideo(room)) == room
    ensures ToggleMute(ToggleVideo(room)) == ToggleVideo(ToggleMute(room))
  {
  }

  /** A tab button: makes its tab the active one and changes nothing else. */
  function SelectTab(room: Room, t: Tab): (r: Room)
    ensures r.activeTab == t
    ensures r.(activeTab := room.activeTab) == room
  {
    room.(activeTab := t)
  }

  /** Selecting the active tab changes nothing, and selecting twice is selecting once. */
  lemma SelectTabIdempotent(room: Room, t: Tab, u: Tab)
    ensures SelectTab(room, room.activeTab) == room
    ensures SelectTab(SelectTab(room, u), t) == SelectTab(room, t)
  {
  }
}
