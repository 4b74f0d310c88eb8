/**
 * The settings page: the preferred-topic list (add on Enter, remove by
 * index), the notification and accessibility switches, the privacy switches
 * behind a confirmation modal, and the single open-modal slot.
 */
module Settings {
  import opened Wrappers
  import Seqs
  import Text

  /** The eight switches of the notifications section. */
  datatype NotificationKey =
    | EmailDebateInvites | EmailResults | EmailNewTopics | InAppDebateInvites
    | InAppResults | InAppNewTopics | DebateReminders | Newsletter

  datatype NotificationSettings = NotificationSettings(
    emailDebateInvites: bool,
    emailResults: bool,
    emailNewTopics: bool,
    inAppDebateInvites: bool,
    inAppResults: bool,
    inAppNewTopics: bool,
    debateReminders: bool,
    newsletter: bool)
  {
    /** `notificationSettings[key]`. */
    function Get(key: NotificationKey): bool {
      match key
      case EmailDebateInvites => emailDebateInvites
      case EmailResults => emailResults
      case EmailNewTopics => emailNewTopics
      case InAppDebateInvites => inAppDebateInvites
      case InAppResults => inAppResults
      case InAppNewTopics => inAppNewTopics
      case DebateReminders => debateReminders
      case Newsletter => newsletter
    }

    /** `{ ...notificationSettings, [key]: value }`. */
    function With(key: NotificationKey, value: bool): (r: NotificationSettings)
      ensures r.Get(key) == value
      ensures forall other :: other != key ==> r.Get(other) == Get(other)
    {
      match key
      case EmailDebateInvites => this.(emailDebateInvites := value)
      case EmailResults => this.(emailResults := value)
      case EmailNewTopics => this.(emailNewTopics := value)
      case InAppDebateInvites => this.(inAppDebateInvites := value)
      case InAppResults => this.(inAppResults := value)
      case InAppNewTopics => this.(inAppNewTopics := value)
      case DebateReminders => this.(debateReminders := value)
      case Newsletter => this.(newsletter := value)
    }
  }

  const InitialNotifications := NotificationSettings(true, true, false, true, true, true, true, false)

  /** Two settings that agree on every key are the same settings. */
  lemma NotificationsExtensional(a: NotificationSettings, b: NotificationSettings)
    requires forall key :: a.Get(key) == b.Get(key)
    ensures a == b
  {
    assert a.Get(EmailDebateInvites) == b.Get(EmailDebateInvites);
    assert a.Get(EmailResults) == b.Get(EmailResults);
    assert a.Get(EmailNewTopics) == b.Get(EmailNewTopics);
    assert a.Get(InAppDebateInvites) == b.Get(InAppDebateInvites);
    assert a.Get(InAppResults) == b.Get(InAppResults);
    assert a.Get(InAppNewTopics) == b.Get(InAppNewTopics);
    assert a.Get(DebateReminders) == b.Get(DebateReminders);
    assert a.Get(Newsletter) == b.Get(Newsletter);
  }

  datatype AccessibilityKey = ReducedMotion | ScreenReader

  datatype AccessibilitySettings = AccessibilitySettings(
    fontSize: string, contrast: string, reducedMotion: bool, screenReader: bool)
  {
    function Get(key: AccessibilityKey): bool {
      match key
      case ReducedMotion => reducedMotion
      case ScreenReader => screenReader
    }

    function With(key: AccessibilityKey, value: bool): (r: AccessibilitySettings)
      ensures r.Get(key) == value
      ensures forall other :: other != key ==> r.Get(other) == Get(other)
      ensures r.fontSize == fontSize && r.contrast == contrast
    {
      match key
      case ReducedMotion => this.(reducedMotion := value)
      case ScreenReader => this.(screenReader := value)
    }
  }

  const InitialAccessibility := AccessibilitySettings("medium", "normal", false, false)

  /** The three privacy switches that ask for confirmation. */
  datatype PrivacyKey = ShowRating | AllowMessages | Searchable

  datatype PrivacySettings = PrivacySettings(
    profileVisibility: string,
    debateHistoryVisibility: string,
    showRating: bool,
    allowMessages: bool,
    searchable: bool)
  {
    function Get(key: PrivacyKey): bool {
      match key
      case ShowRating => showRating
      case AllowMessages => allowMessages
      case Searchable => searchable
    }

    function With(key: PrivacyKey, value: bool): (r: PrivacySettings)
      ensures r.Get(key) == value
      ensures forall other :: other != key ==> r.Get(other) == Get(other)
      ensures r.profileVisibility == profileVisibility
      ensures r.debateHistoryVisibility == debateHistoryVisibility
    {
      match key
      case ShowRating => this.(showRating := value)
      case AllowMessages => this.(allowMessages := value)
      case Searchable => this.(searchable := value)
    }
  }

  const InitialPrivacy := PrivacySettings("public", "connections", true, true, true)

  datatype DebatePreferences = DebatePreferences(
    defaultFormat: string,
    difficultyLevel: string,
    preferredTopics: seq<string>,
    autoMatchmaking: bool,
    preparationTime: string)

  const InitialPreferences := DebatePreferences(
    "Oxford Style", "Advanced",
    ["Technology Ethics", "Environmental Policy", "Global Economics"],
    true, "30 minutes")

  /** The modals of the page: the profile photo, the login-record removal and one confirmation per privacy switch. */
  datatype Modal = ProfilePhoto | RemoveLogin | PrivacyConfirm(key: PrivacyKey)

  /** The page state the handlers touch; `topicInput` is the text in the add-topic field. */
  datatype SettingsPage = SettingsPage(
    openModal: Option<Modal>,
    notifications: NotificationSettings,
    privacy: PrivacySettings,
    preferences: DebatePreferences,
    accessibility: AccessibilitySettings,
    topicInput: string)

  const InitialPage := SettingsPage(None, InitialNotifications, InitialPrivacy, InitialPreferences,
                                    InitialAccessibility, "")

  /** Whether a modal is showing. */
  predicate IsOpen(page: SettingsPage, m: Modal) {
    page.openModal == Some(m)
  }

  /**
   * Two modals are never open together. This holds by construction: the
   * page keeps one optional `openModal` slot, as the source keeps one
   * `openModal` state, and the lemma only records that consequence.
   */
  lemma AtMostOneModal(page: SettingsPage, a: Modal, b: Modal)
    requires IsOpen(page, a) && IsOpen(page, b)
    ensures a == b
  {
  }

  /** `setOpenModal(m)`: the photo and removal buttons, and a privacy switch, which only asks. */
  function OpenModal(page: SettingsPage, m: Modal): (r: SettingsPage)
    ensures IsOpen(r, m) && forall other :: other != m ==> !IsOpen(r, other)
    ensures r.privacy == page.privacy && r.notifications == page.notifications
    ensures r.preferences == page.preferences && r.accessibility == page.accessibility
  {
    page.(openModal := Some(m))
  }

  /** `setOpenModal(null)`: cancel, close, or a confirm of the photo or removal modal. */
  function CloseModal(page: SettingsPage): (r: SettingsPage)
    ensures forall m :: !IsOpen(r, m)
    ensures r.privacy == page.privacy && r.notifications == page.notifications
    ensures r.preferences == page.preferences && r.accessibility == page.accessibility
  {
    page.(openModal := None)
  }

  /** A notification switch: flips its own key and nothing else on the page. */
  function ToggleNotification(page: SettingsPage, key: NotificationKey): (r: SettingsPage)
    ensures r.notifications.Get(key) == !page.notifications.Get(key)
    ensures forall other :: other != key ==> r.notifications.Get(other) == page.notifications.Get(other)
    ensures r.(notifications := page.notifications) == page
  {
    page.(notifications := page.notifications.With(key, !page.notifications.Get(key)))
  }

  /** Flipping a notification switch twice restores the page. */
  lemma ToggleNotificationTwice(page: SettingsPage, key: NotificationKey)
    ensures ToggleNotification(ToggleNotification(page, key), key) == page
  {
    var r := ToggleNotification(ToggleNotification(page, key), key);
    NotificationsExtensional(r.notifications, page.notifications);
  }

  /** An accessibility switch: flips its own key and nothing else on the page. */
  function ToggleAccessibility(page: SettingsPage, key: AccessibilityKey): (r: SettingsPage)
    ensures r.accessibility.Get(key) == !page.accessibility.Get(key)
    ensures forall other :: other != key ==> r.accessibility.Get(other) == page.accessibility.Get(other)
    ensures r.accessibility.fontSize == page.accessibility.fontSize
    ensures r.accessibility.contrast == page.accessibility.contrast
    ensures r.(accessibility := page.accessibility) == page
  {
    page.(accessibility := page.accessibility.With(key, !page.accessibility.Get(key)))
  }

  /** Flipping an accessibility switch twice restores the page. */
  lemma ToggleAccessibilityTwice(page: SettingsPage, key: AccessibilityKey)
    ensures ToggleAccessibility(ToggleAccessibility(page, key), key) == page
  {
  }

  /** `handlePrivacyChange(key, value)`: sets that switch to `value` and closes every modal. */
  function HandlePrivacyChange(page: SettingsPage, key: PrivacyKey, value: bool): (r: SettingsPage)
    ensures r.privacy.Get(key) == value
    ensures forall other :: other != key ==> r.privacy.Get(other) == page.privacy.Get(other)
    ensures r.privacy.profileVisibility == page.privacy.profileVisibility
    ensures r.privacy.debateHistoryVisibility == page.privacy.debateHistoryVisibility
    ensures r.openModal == None
    ensures r.notifications == page.notifications && r.preferences == page.preferences
    ensures r.accessibility == page.accessibility && r.topicInput == page.topicInput
  {
    page.(privacy := page.privacy.With(key, value), openModal := None)
  }

  /** The confirm button of a privacy modal passes the negated current value. */
  function ConfirmPrivacyChange(page: SettingsPage, key: PrivacyKey): (r: SettingsPage)
    ensures r.privacy.Get(key) == !page.privacy.Get(key)
    ensures forall other :: other != key ==> r.privacy.Get(other) == page.privacy.Get(other)
    ensures r.privacy.profileVisibility == page.privacy.profileVisibility
    ensures r.privacy.debateHistoryVisibility == page.privacy.debateHistoryVisibility
    ensures r.openModal == None
    ensures r.notifications == page.notifications && r.preferences == page.preferences
    ensures r.accessibility == page.accessibility && r.topicInput == page.topicInput
  {
    HandlePrivacyChange(page, key, !page.privacy.Get(key))
  }

  /**
   * Asking and confirming flips exactly the asked switch and leaves no modal
   * open; asking and confirming again restores the settings.
   */
  lemma PrivacyConfirmFlips(page: SettingsPage, key: PrivacyKey)
    ensures var r := ConfirmPrivacyChange(OpenModal(page, PrivacyConfirm(key)), key);
            && r.privacy.Get(key) == !page.privacy.Get(key)
            && (forall other :: other != key ==> r.privacy.Get(other) == page.privacy.Get(other))
            && r.openModal == None
    ensures var twice := ConfirmPrivacyChange(OpenModal(ConfirmPrivacyChange(OpenModal(page, PrivacyConfirm(key)), key),
                                                        PrivacyConfirm(key)), key);
            twice.privacy == page.privacy
  {
  }

  /** Cancelling a privacy modal changes no setting. */
  lemma PrivacyCancelKeeps(page: SettingsPage, key: PrivacyKey)
    ensures CloseModal(OpenModal(page, PrivacyConfirm(key))).privacy == page.privacy
    ensures CloseModal(OpenModal(page, PrivacyConfirm(key))).openModal == None
  {
  }

  /** What the preferred-topic list keeps true: trimmed, non-empty, distinct entries. */
  predicate TopicsWellFormed(topics: seq<string>) {
    && Seqs.NoDuplicates(topics)
    && forall k :: 0 <= k < |topics| ==> topics[k] != "" && Text.Trim(topics[k]) == topics[k]
  }

  /**
   * `handleAddTopic` for a key press: on Enter, the trimmed input is appended
   * when it is non-empty and not yet listed, and the field is cleared; any
   * other key, a blank input or a listed topic leaves list and field alone.
   */
  function HandleAddTopic(page: SettingsPage, key: string): (r: SettingsPage)
    ensures key != "Enter" ==> r == page
    ensures var t := Text.Trim(page.topicInput);
            var topics := page.preferences.preferredTopics;
            key == "Enter" && t != "" && t !in topics ==>
              && r.preferences.preferredTopics == topics + [t]
              && r.topicInput == ""
              && r.preferences == page.preferences.(preferredTopics := topics + [t])
              && r.(preferences := page.preferences, topicInput := page.topicInput) == page
    ensures var t := Text.Trim(page.topicInput);
            t == "" || t in page.preferences.preferredTopics ==> r == page
  {
    if key == "Enter" then
      var topic := Text.Trim(page.topicInput);
      if topic != "" && topic !in page.preferences.preferredTopics then
        page.(preferences := page.preferences.(preferredTopics := page.preferences.preferredTopics + [topic]),
              topicInput := "")
      else page
    else page
  }

  /** Adding a topic never breaks the list's invariant, so the list never holds a duplicate. */
  lemma AddTopicKeepsWellFormed(page: SettingsPage, key: string)
    requires TopicsWellFormed(page.preferences.preferredTopics)
    ensures TopicsWellFormed(HandleAddTopic(page, key).preferences.preferredTopics)
  {
    var topics := page.preferences.preferredTopics;
    var t := Text.Trim(page.topicInput);
    if key == "Enter" && t != "" && t !in topics {
      Text.TrimIdempotent(page.topicInput);
      Seqs.AppendAbsentNoDuplicates(topics, t);
      var r := topics + [t];
      assert forall k :: 0 <= k < |topics| ==> r[k] == topics[k];
    }
  }

  /** `handleRemoveTopic(index)`: the list without that position; an index out of range does nothing. */
  function HandleRemoveTopic(page: SettingsPage, index: int): (r: SettingsPage)
    ensures r.preferences.preferredTopics == Seqs.RemoveAt(page.preferences.preferredTopics, index)
    ensures r.(preferences := page.preferences) == page
    ensures r.preferences.(preferredTopics := page.preferences.preferredTopics) == page.preferences
  {
    var topics := page.preferences.preferredTopics;
    Seqs.FilterIndexIsRemoveAt(topics, index, 0);
    page.(preferences := page.preferences.(preferredTopics := Seqs.FilterIndex(topics, index, 0)))
  }

  /** Removing a topic keeps the list's invariant. */
  lemma RemoveTopicKeepsWellFormed(page: SettingsPage, index: int)
    requires TopicsWellFormed(page.preferences.preferredTopics)
    ensures TopicsWellFormed(HandleRemoveTopic(page, index).preferences.preferredTopics)
  {
    var topics := page.preferences.preferredTopics;
    Seqs.RemoveAtNoDuplicates(topics, index);
    var r := Seqs.RemoveAt(topics, index);
    forall k | 0 <= k < |r|
      ensures r[k] != "" && Text.Trim(r[k]) == r[k]
    {
      assert r[k] in topics;
    }
  }

  /** Removing a topic that was just added restores the list. */
  lemma AddThenRemoveRestores(page: SettingsPage)
    requires var t := Text.Trim(page.topicInput);
             t != "" && t !in page.preferences.preferredTopics
    ensures var added := HandleAddTopic(page, "Enter");
            HandleRemoveTopic(added, |page.preferences.preferredTopics|).preferences == page.preferences
  {
    var topics := page.preferences.preferredTopics;
    var t := Text.Trim(page.topicInput);
    assert (topics + [t])[..|topics|] == topics;
  }

  /** A topic that starts and ends with a letter is non-empty and trimmed. */
  lemma LetterBoundedTopicIsTrimmed(t: string)
    requires |t| > 0 && Text.IsAsciiLetter(t[0]) && Text.IsAsciiLetter(t[|t| - 1])
    ensures t != "" && Text.Trim(t) == t
  {
    Text.LetterNotWhitespace(t[0]);
    Text.LetterNotWhitespace(t[|t| - 1]);
    Text.TrimUnchanged(t);
  }

  /** Three letter-bounded topics of different lengths make a well-formed list. */
  lemma ThreeTopicsWellFormed(a: string, b: string, c: string)
    requires |a| > 0 && Text.IsAsciiLetter(a[0]) && Text.IsAsciiLetter(a[|a| - 1])
    requires |b| > 0 && Text.IsAsciiLetter(b[0]) && Text.IsAsciiLetter(b[|b| - 1])
    requires |c| > 0 && Text.IsAsciiLetter(c[0]) && Text.IsAsciiLetter(c[|c| - 1])
    requires |a| != |b| && |b| != |c| && |a| != |c|
    ensures TopicsWellFormed([a, b, c])
  {
    LetterBoundedTopicIsTrimmed(a);
    LetterBoundedTopicIsTrimmed(b);
    LetterBoundedTopicIsTrimmed(c);
  }

  /** The page opens with a well-formed topic list. */
  lemma InitialTopicsWellFormed()
    ensures TopicsWellFormed(InitialPage.preferences.preferredTopics)
  {
    ThreeTopicsWellFormed("Technology Ethics", "Environmental Policy", "Global Economics");
  }
}
