/**
 * The topic discussion room: the countdown and its `m:ss` rendering, the chat
 * input, and the add-resource form with its required fields.
 */
module TopicDiscussion {
  import opened Wrappers
  import Text

  /** JavaScript's `%`: the remainder takes the sign of the dividend. */
  function JsRemainder(a: int, b: int): (r: int)
    requires b > 0
    ensures a >= 0 ==> 0 <= r < b
    ensures a < 0 ==> -b < r <= 0
  {
    if a >= 0 then a % b else -((-a) % b)
  }

  /**
   * `formatTime`: `Math.floor(seconds / 60)`, a colon, then `seconds % 60`
   * padded with zeros to two characters. Dafny's `/` floors for a positive
   * divisor, as `Math.floor` does; `%` is JavaScript's truncating remainder.
   */
  function FormatTime(seconds: int): (r: string)
    ensures |r| >= 4
  {
    var mins := seconds / 60;
    var secs := JsRemainder(seconds, 60);
    Text.IntToString(mins) + ":" + Text.PadStart(Text.IntToString(secs), 2, '0')
  }

  /** The two-digit zero-padded rendering of a seconds count below 60. */
  function TwoDigits(k: nat): (r: string)
    requires k < 60
    ensures |r| == 2 && Text.IsDecimalDigit(r[0]) && Text.IsDecimalDigit(r[1])
    ensures Text.DigitsValue(r, 10) == k
  {
    var r := [Text.DigitChar(k / 10), Text.DigitChar(k % 10)];
    assert r[..1][..0] == [];
    assert Text.DigitsValue(r[..1], 10) == k / 10;
    assert Text.DigitsValue(r, 10) == (k / 10) * 10 + k % 10;
    r
  }

  /** For a non-negative count, the padded seconds are exactly the two digits of `s % 60`. */
  lemma PaddedSeconds(k: nat)
    requires k < 60
    ensures Text.PadStart(Text.IntToString(k), 2, '0') == TwoDigits(k)
  {
    if k >= 10 {
      assert Text.NatToString(k / 10) == [Text.DigitChar(k / 10)];
    }
  }

  /** `formatTime(s)` for `s >= 0` is the minutes in decimal, a colon, and the two-digit seconds. */
  lemma FormatTimeShape(seconds: nat)
    ensures FormatTime(seconds) == Text.NatToString(seconds / 60) + ":" + TwoDigits(seconds % 60)
  {
    PaddedSeconds(seconds % 60);
  }

  /** In a clock `m:ss` of digit strings with two seconds digits, the colon is the third character from the end and the only one. */
  lemma ClockSecondsField(m: string, ss: string)
    requires |m| > 0 && forall k :: 0 <= k < |m| ==> Text.IsDecimalDigit(m[k])
    requires |ss| == 2 && Text.IsDecimalDigit(ss[0]) && Text.IsDecimalDigit(ss[1])
    ensures var t := m + ":" + ss;
            |t| >= 4 && t[|t| - 3] == ':'
            && Text.IsDecimalDigit(t[|t| - 2]) && Text.IsDecimalDigit(t[|t| - 1])
            && t[|t| - 2..] == ss
            && forall k :: 0 <= k < |t| - 3 ==> t[k] != ':'
  {
    var t := m + ":" + ss;
    assert t[|t| - 2..] == ss;
    forall k | 0 <= k < |t| - 3
      ensures t[k] != ':'
    {
      assert t[k] == m[k];
    }
  }

  /** The seconds field is always the last two characters, a value in 00..59, after the only colon. */
  lemma FormatTimeSecondsField(seconds: nat)
    ensures var t := FormatTime(seconds);
            |t| >= 4 && t[|t| - 3] == ':'
            && Text.IsDecimalDigit(t[|t| - 2]) && Text.IsDecimalDigit(t[|t| - 1])
            && Text.DigitsValue(t[|t| - 2..], 10) == seconds % 60 < 60
            && forall k :: 0 <= k < |t| - 3 ==> t[k] != ':'
  {
    ClockSecondsField(Text.NatToString(seconds / 60), TwoDigits(seconds % 60));
    FormatTimeShape(seconds);
  }

  /** The two pieces of a clock, minutes and two-digit seconds, read as seconds; `None` for any other shape. */
  function ReadClockParts(parts: seq<string>): Option<nat> {
    if |parts| == 2 && |parts[0]| > 0 && |parts[1]| == 2
       && (forall k :: 0 <= k < |parts[0]| ==> Text.IsDecimalDigit(parts[0][k]))
       && Text.IsDecimalDigit(parts[1][0]) && Text.IsDecimalDigit(parts[1][1])
       && Text.DigitsValue(parts[1], 10) < 60
    then Some(Text.DigitsValue(parts[0], 10) * 60 + Text.DigitsValue(parts[1], 10))
    else None
  }

  /** Reads an `m:ss` clock back into seconds; `None` for anything else. */
  function ParseClock(t: string): Option<nat> {
    ReadClockParts(Text.Split(t, ':'))
  }

  /** A digit string holds no colon. */
  lemma DigitsHaveNoColon(s: string)
    requires forall k :: 0 <= k < |s| ==> Text.IsDecimalDigit(s[k])
    ensures ':' !in s
  {
    forall k | 0 <= k < |s|
      ensures s[k] != ':'
    {
      assert Text.IsDecimalDigit(s[k]);
    }
  }

  /** Two colon-free strings joined by a colon split back into the two. */
  lemma ClockSplits(m: string, ss: string)
    requires ':' !in m && ':' !in ss
    ensures Text.Split(m + ":" + ss, ':') == [m, ss]
  {
    Text.SplitAtFirstSeparator(m, ':', ss);
    Text.SplitWithoutSeparator(ss, ':');
    assert m + ":" + ss == m + [':'] + ss;
  }

  /** Minutes in digits and two seconds digits below 60 read as `m * 60 + ss`. */
  lemma ReadDigitParts(m: string, ss: string)
    requires |m| > 0 && forall k :: 0 <= k < |m| ==> Text.IsDecimalDigit(m[k])
    requires |ss| == 2 && Text.IsDecimalDigit(ss[0]) && Text.IsDecimalDigit(ss[1])
    requires Text.DigitsValue(ss, 10) < 60
    ensures ReadClockParts([m, ss]) == Some(Text.DigitsValue(m, 10) * 60 + Text.DigitsValue(ss, 10))
  {
    var parts := [m, ss];
    assert |parts| == 2 && parts[0] == m && parts[1] == ss;
    assert forall k :: 0 <= k < |parts[0]| ==> Text.IsDecimalDigit(parts[0][k]);
  }

  /** The two pieces of `formatTime(s)` for `s >= 0`: its minutes and its two seconds digits. */
  lemma FormatTimeSplits(seconds: nat)
    ensures Text.Split(FormatTime(seconds), ':') == [Text.NatToString(seconds / 60), TwoDigits(seconds % 60)]
  {
    var m := Text.NatToString(seconds / 60);
    var ss := TwoDigits(seconds % 60);
    DigitsHaveNoColon(m);
    assert ':' !in ss;
    ClockSplits(m, ss);
    FormatTimeShape(seconds);
  }

  /** Reading `mins * 60 + secs` back from `formatTime(s)` gives `s` for every `s >= 0`. */
  lemma FormatTimeRoundTrip(seconds: nat)
    ensures ParseClock(FormatTime(seconds)) == Some(seconds)
  {
    var m := Text.NatToString(seconds / 60);
    var ss := TwoDigits(seconds % 60);
    Text.NatToStringValue(seconds / 60);
    ReadDigitParts(m, ss);
    FormatTimeSplits(seconds);
  }

  /** One tick of the one-second interval: count down, but never below zero. */
  function Tick(remaining: int): (r: int)
    ensures r >= 0
    ensures remaining > 0 ==> r == remaining - 1
    ensures remaining <= 0 ==> r == 0
  {
    if remaining > 0 then remaining - 1 else 0
  }

  /** The countdown after `n` ticks. */
  function Ticks(remaining: int, n: nat): int
    decreases n
  {
    if n == 0 then remaining else Ticks(Tick(remaining), n - 1)
  }

  /** After `n` ticks from `t >= 0` the countdown shows `t - n`, clamped at zero. */
  lemma {:induction false} TicksClampAtZero(remaining: nat, n: nat)
    ensures Ticks(remaining, n) == if n <= remaining then remaining - n else 0
    decreases n
  {
    if n > 0 {
      TicksClampAtZero(Tick(remaining), n - 1);
    }
  }

  /** The opening five-minute clock reads `300 - n` after `n` ticks, and 0 from the 300th on. */
  lemma OpeningCountdown(n: nat)
    ensures Ticks(InitialRoom.remainingTime, n) == if n <= 300 then 300 - n else 0
  {
    TicksClampAtZero(300, n);
  }

  /** The add-resource form; the file is a name standing in for the browser's `File`. */
  datatype ResourceForm = ResourceForm(
    title: string, kind: string, source: string, file: Option<string>, description: string)

  const EmptyResourceForm := ResourceForm("", "", "", None, "")

  /** The page state the handlers of this room touch. */
  datatype DiscussionRoom = DiscussionRoom(
    messageInput: string,
    remainingTime: int,
    showAddResource: bool,
    newResource: ResourceForm)

  /** The room as it opens: five minutes on the clock, no modal, empty inputs. */
  const InitialRoom := DiscussionRoom("", 300, false, EmptyResourceForm)

  /** Title, type, source and description are required; the file is not. */
  predicate ResourceComplete(form: ResourceForm) {
    form.title != "" && form.kind != "" && form.source != "" && form.description != ""
  }

  /**
   * `handleResourceSubmit`: an incomplete form changes nothing; a complete one
   * is reset to empty fields and no file, and the modal closes.
   */
  function HandleResourceSubmit(room: DiscussionRoom): (r: DiscussionRoom)
    ensures !ResourceComplete(room.newResource) ==> r == room
    ensures ResourceComplete(room.newResource) ==>
              r.newResource == EmptyResourceForm && !r.showAddResource
    ensures r.messageInput == room.messageInput && r.remainingTime == room.remainingTime
  {
    var form := room.newResource;
    if form.title == "" || form.kind == "" || form.source == "" || form.description == "" then room
    else room.(newResource := ResourceForm("", "", "", None, ""), showAddResource := false)
  }

  /** Whether a submit is accepted never depends on the attached file. */
  lemma ResourceFileNotRequired(room: DiscussionRoom, file: Option<string>)
    ensures HandleResourceSubmit(room.(newResource := room.newResource.(file := file))).showAddResource
            == (room.showAddResource && !ResourceComplete(room.newResource))
    ensures HandleResourceSubmit(room).showAddResource
            == (room.showAddResource && !ResourceComplete(room.newResource))
  {
  }

  /** A second submit right after a first changes nothing more. */
  lemma ResourceSubmitIdempotent(room: DiscussionRoom)
    ensures HandleResourceSubmit(HandleResourceSubmit(room)) == HandleResourceSubmit(room)
  {
  }

  /**
   * `handleSendMessage`: an input made only of whitespace is left as it is;
   * one with any other character is cleared. Nothing else in the room changes.
   */
  function HandleSendMessage(room: DiscussionRoom): (r: DiscussionRoom)
    ensures (forall k :: 0 <= k < |room.messageInput| ==> Text.IsWhitespace(room.messageInput[k])) ==> r == room
    ensures !(forall k :: 0 <= k < |room.messageInput| ==> Text.IsWhitespace(room.messageInput[k])) ==>
              r == room.(messageInput := "")
  {
    Text.TrimEmptyIff(room.messageInput);
    if Text.Trim(room.messageInput) != "" then room.(messageInput := "") else room
  }

  /** Sending twice in a row is sending once: a cleared input is blank. */
  lemma SendMessageIdempotent(room: DiscussionRoom)
    ensures HandleSendMessage(HandleSendMessage(room)) == HandleSendMessage(room)
  {
  }
}
