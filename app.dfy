/** The state of the main component (App.tsx) and its handlers. Every piece
    of component state the handlers touch is a field; each handler is a method
    that states the whole new state in terms of the old one. */
module App {
  import opened Types
  import JsString
  import Feedback

  /** The five views of the app. */
  datatype View = Home | Vibes | Archive | Search | Friends

  /** `CATEGORIES`: the category buttons of the input form, in display order. */
  const Categories: seq<Category> :=
    [Academics, LoveLife, AnnoyingPeople, Family, StressOverthinking, SillyRandom, Other]

  /** The caption stored when the user leaves the caption field empty. */
  const DefaultCaption := "Manifesting a better day..."

  /** The status of a newly added friend. */
  const NewFriendStatus := "CHILLING"

  /** The category selected when the form opens or is reset. */
  const DefaultCategory := Other

  /** The list of categories offers each category exactly once. */
  lemma CategoriesListsEachOnce(c: Category)
    ensures c in Categories
    ensures forall i, j :: 0 <= i < j < |Categories| ==> Categories[i] != Categories[j]
  {
  }

  /** A copy of the component state, so that a handler's effect can be stated
      as one update of the old state. */
  datatype State = State(
    user: Option<User>,
    history: seq<Crashout>,
    friends: seq<Friend>,
    currentView: View,
    isLogging: bool,
    currentText: string,
    userCaption: string,
    selectedCategory: Category,
    isInputVisible: bool,
    searchQuery: string,
    friendSearch: string,
    sharingCrashout: Option<Crashout>)

  /** The state of a freshly mounted component. */
  const Initial := State(None, [], [], Home, false, "", "", DefaultCategory, false, "", "", None)

  /** Every entry of `history` has a drama level in 1..10. */
  predicate LevelsInRange(history: seq<Crashout>)
  {
    forall i :: 0 <= i < |history| ==> 1 <= history[i].dramaLevel <= 10
  }

  /** A history with a new entry in front keeps its levels in range exactly
      when the new entry's level is in range. */
  lemma LevelsInRangePrepend(e: Crashout, history: seq<Crashout>)
    ensures LevelsInRange([e] + history) <==> 1 <= e.dramaLevel <= 10 && LevelsInRange(history)
  {
    var h := [e] + history;
    if LevelsInRange(h) {
      assert h[0] == e;
      forall i | 0 <= i < |history| ensures 1 <= history[i].dramaLevel <= 10 {
        assert h[i + 1] == history[i];
      }
    }
  }

  /** The entry logged by a submit: the text and category of the form, the
      caption or its default, and the quote and level of the reaction. */
  function NewEntry(id: string, now: int, text: string, caption: string, category: Category, r: Feedback.Reaction): (e: Crashout)
    ensures e.description == text && e.category == category && e.id == id && e.timestamp == now
    ensures e.userCaption == if caption == "" then DefaultCaption else caption
    ensures e.funnyQuote == r.funnyQuote && e.dramaLevel == r.dramaLevel
  {
    Crashout(id, now, text, category, r.dramaLevel, r.funnyQuote, if caption != "" then caption else DefaultCaption)
  }

  /** The friend added for the handle typed in the search box: the name is the
      text before the first '@', the username the text with its first '@'
      removed, with the status of a new friend and no message yet. */
  function NewFriend(id: string, handle: string): (f: Friend)
    ensures f.id == id && f.status == NewFriendStatus && f.lastMessageReceived == None
    ensures f.name == JsString.BeforeFirst(handle, '@')
    ensures f.username == JsString.RemoveFirst(handle, '@')
  {
    Friend(id, JsString.BeforeFirst(handle, '@'), JsString.RemoveFirst(handle, '@'), NewFriendStatus, None)
  }

  /** A new friend's name is the start of its username, and the username is
      the handle less one '@' when the handle has one. */
  lemma NewFriendNameStartsUsername(id: string, handle: string)
    ensures var f := NewFriend(id, handle);
            && |f.name| <= |f.username| && f.name == f.username[..|f.name|]
            && ('@' !in handle ==> f.name == handle && f.username == handle)
            && ('@' in handle ==> |f.username| == |handle| - 1)
  {
    JsString.BeforeFirstSpec(handle, '@');
    JsString.RemoveFirstSpec(handle, '@');
    JsString.RemoveFirstRemovesOne(handle, '@');
  }

  /** The message a share leaves with a friend: `"<caption>" - <description>`. */
  function ShareMessage(c: Crashout): (m: string)
    ensures |m| == |c.userCaption| + |c.description| + 5
    ensures m[0] == '"' && m[1..1 + |c.userCaption|] == c.userCaption
    ensures m[1 + |c.userCaption|..|m| - |c.description|] == "\" - "
    ensures m[|m| - |c.description|..] == c.description
  {
    var prefix := "\"" + c.userCaption + "\" - ";
    var m := prefix + c.description;
    assert m[|prefix|..] == c.description;
    assert m[1..1 + |c.userCaption|] == prefix[1..1 + |c.userCaption|] == c.userCaption;
    assert m[1 + |c.userCaption|..|prefix|] == prefix[1 + |c.userCaption|..] == "\" - ";
    m
  }

  /** `friends.map(...)` of a share: each friend with the id gets the message
      as its last message; the list keeps its length and order, and nothing
      else of any friend changes. */
  function DeliverTo(friends: seq<Friend>, id: string, msg: string): (r: seq<Friend>)
    ensures |r| == |friends|
    ensures forall i :: 0 <= i < |r| ==>
              && r[i].id == friends[i].id && r[i].name == friends[i].name
              && r[i].username == friends[i].username && r[i].status == friends[i].status
    ensures forall i :: 0 <= i < |r| ==>
              r[i].lastMessageReceived == if friends[i].id == id then Some(msg) else friends[i].lastMessageReceived
  {
    seq(|friends|, i requires 0 <= i < |friends| =>
      if friends[i].id == id then friends[i].(lastMessageReceived := Some(msg)) else friends[i])
  }

  /** A second share to the same friend replaces the first message. */
  lemma DeliverToOverwrites(friends: seq<Friend>, id: string, m1: string, m2: string)
    ensures DeliverTo(DeliverTo(friends, id, m1), id, m2) == DeliverTo(friends, id, m2)
  {
  }

  /** A share to an id no friend has leaves the friends as they are. */
  lemma DeliverToUnknownId(friends: seq<Friend>, id: string, msg: string)
    requires forall i :: 0 <= i < |friends| ==> friends[i].id != id
    ensures DeliverTo(friends, id, msg) == friends
  {
  }

  /** `history.filter(h => h.description.includes(searchQuery))`. */
  function SearchResults(history: seq<Crashout>, query: string): (r: seq<Crashout>)
    ensures |r| <= |history|
    ensures forall i :: 0 <= i < |r| ==> r[i] in history && JsString.Includes(r[i].description, query)
  {
    if history == [] then []
    else
      var rest := SearchResults(history[1..], query);
      if JsString.Includes(history[0].description, query) then [history[0]] + rest else rest
  }

  /** Filtering a history made of two parts filters each part and keeps them
      in order: the results are in history order. */
  lemma {:induction false} SearchResultsAppend(a: seq<Crashout>, b: seq<Crashout>, query: string)
    ensures SearchResults(a + b, query) == SearchResults(a, query) + SearchResults(b, query)
  {
    if a != [] {
      assert (a + b)[1..] == a[1..] + b;
      SearchResultsAppend(a[1..], b, query);
    } else {
      assert a + b == b;
    }
  }

  /** Every entry whose description contains the query is shown. */
  lemma {:induction false} SearchResultsComplete(history: seq<Crashout>, query: string, e: Crashout)
    requires e in history && JsString.Includes(e.description, query)
    ensures e in SearchResults(history, query)
  {
    if history[0] != e {
      SearchResultsComplete(history[1..], query, e);
    }
  }

  /** The empty query shows the whole history. */
  lemma {:induction false} SearchEmptyQueryShowsAll(history: seq<Crashout>)
    ensures SearchResults(history, "") == history
  {
    if history != [] {
      JsString.IncludesEmpty(history[0].description);
      SearchEmptyQueryShowsAll(history[1..]);
    }
  }

  /** The component: its state and its handlers. */
  class App {
    var user: Option<User>
    var history: seq<Crashout>
    var friends: seq<Friend>
    var currentView: View
    var isLogging: bool
    var currentText: string
    var userCaption: string
    var selectedCategory: Category
    var isInputVisible: bool
    var searchQuery: string
    var friendSearch: string
    var sharingCrashout: Option<Crashout>

    /** The current state as a value. */
    function Snapshot(): State
      reads this
    {
      State(user, history, friends, currentView, isLogging, currentText, userCaption,
            selectedCategory, isInputVisible, searchQuery, friendSearch, sharingCrashout)
    }

    /** The documented range of the drama level holds for the whole history. */
    predicate Valid()
      reads this
    {
      LevelsInRange(history)
    }

    /** The component as first rendered: signed out, empty lists, home view. */
    constructor()
      ensures Snapshot() == Initial
      ensures Valid()
    {
      user, history, friends, currentView := None, [], [], Home;
      isLogging, currentText, userCaption, selectedCategory := false, "", "", DefaultCategory;
      isInputVisible, searchQuery, friendSearch, sharingCrashout := false, "", "", None;
    }

    /** `handleAuth`: the login form signs a user in. */
    method HandleAuth(u: User)
      requires Valid()
      modifies this
      ensures Valid()
      ensures Snapshot() == old(Snapshot()).(user := Some(u))
    {
      user := Some(u);
    }

    /** `handleLogout`: the user is signed out; nothing else changes. */
    method HandleLogout()
      requires Valid()
      modifies this
      ensures Valid()
      ensures Snapshot() == old(Snapshot()).(user := None)
    {
      user := None;
    }

    /** `handleCrashClick`: the input form is shown. */
    method HandleCrashClick()
      requires Valid()
      modifies this
      ensures Valid()
      ensures Snapshot() == old(Snapshot()).(isInputVisible := true)
    {
      isInputVisible := true;
    }

    /** The navigation bar's buttons switch the view. */
    method SetView(v: View)
      requires Valid()
      modifies this
      ensures Valid()
      ensures Snapshot() == old(Snapshot()).(currentView := v)
    {
      currentView := v;
    }

    /** The form's inputs: the text, the caption and the category buttons. */
    method EditForm(text: string, caption: string, category: Category)
      requires Valid()
      modifies this
      ensures Valid()
      ensures Snapshot() == old(Snapshot()).(currentText := text, userCaption := caption, selectedCategory := category)
    {
      currentText, userCaption, selectedCategory := text, caption, category;
    }

    /** The search box of the search view and the handle box of the friends view. */
    method EditSearches(query: string, handle: string)
      requires Valid()
      modifies this
      ensures Valid()
      ensures Snapshot() == old(Snapshot()).(searchQuery := query, friendSearch := handle)
    {
      searchQuery, friendSearch := query, handle;
    }

    /** A card's share button picks the entry to share. */
    method StartShare(c: Crashout)
      requires Valid()
      modifies this
      ensures Valid()
      ensures Snapshot() == old(Snapshot()).(sharingCrashout := Some(c))
    {
      sharingCrashout := Some(c);
    }

    /** The part of `submitCrashout` after the reaction has arrived: the new
        entry goes in front of the history, the form is reset and hidden, the
        view becomes the archive, and `isLogging` ends false. */
    method LogCrashout(entry: Crashout)
      requires Valid() && 1 <= entry.dramaLevel <= 10
      modifies this
      ensures Valid()
      ensures history == [entry] + old(history)
      ensures currentText == "" && userCaption == "" && selectedCategory == DefaultCategory
      ensures !isInputVisible && currentView == Archive && !isLogging
      ensures user == old(user) && friends == old(friends) && searchQuery == old(searchQuery)
      ensures friendSearch == old(friendSearch) && sharingCrashout == old(sharingCrashout)
    {
      LevelsInRangePrepend(entry, history);
      history := [entry] + history;
      currentText, userCaption, selectedCategory := "", "", DefaultCategory;
      isInputVisible := false;
      currentView := Archive;
      isLogging := false;
    }

    /** The share sheet's cancel button drops the pick. */
    method CancelShare()
      requires Valid()
      modifies this
      ensures Valid()
      ensures Snapshot() == old(Snapshot()).(sharingCrashout := None)
    {
      sharingCrashout := None;
    }

    /** `submitCrashout`. A blank text (after `trim`) or a submit already in
        progress changes nothing. Otherwise `isLogging` is raised, the reaction
        is fetched and the entry built from the form and the reaction is
        logged. `apiKey`, `reply` and `random` stand for the reaction's inputs,
        `id` and `now` for the random id and `Date.now()`. */
    method SubmitCrashout(apiKey: string, reply: Reply<Feedback.ReactionPayload>, random: real, id: string, now: int)
      requires 0.0 <= random < 1.0
      requires Valid()
      modifies this
      ensures Valid()
      ensures Snapshot() ==
                if old(JsString.Trim(currentText) == "" || isLogging) then old(Snapshot())
                else old(Snapshot()).(
                  history := [NewEntry(id, now, old(currentText), old(userCaption), old(selectedCategory),
                                       Feedback.GetAIFeedback(apiKey, Label(old(selectedCategory)), reply, random))]
                             + old(history),
                  currentText := "",
                  userCaption := "",
                  selectedCategory := DefaultCategory,
                  isInputVisible := false,
                  currentView := Archive,
                  isLogging := false)
    {
      if JsString.Trim(currentText) != "" && !isLogging {
        isLogging := true;
        var reaction := Feedback.GetAIFeedback(apiKey, Label(selectedCategory), reply, random);
        var entry := NewEntry(id, now, currentText, userCaption, selectedCategory, reaction);
        LogCrashout(entry);
      }
    }

    /** `handleAddFriend`. A blank handle changes nothing. Otherwise one friend
        built from the handle is appended and the handle box is cleared;
        nothing prevents adding the same handle twice. */
    method HandleAddFriend(id: string)
      requires Valid()
      modifies this
      ensures Valid()
      ensures Snapshot() ==
                if old(JsString.Trim(friendSearch)) == "" then old(Snapshot())
                else old(Snapshot()).(friends := old(friends) + [NewFriend(id, old(friendSearch))], friendSearch := "")
    {
      if JsString.Trim(friendSearch) != "" {
        friends := friends + [NewFriend(id, friendSearch)];
        friendSearch := "";
      }
    }

    /** `handleInternalShare`. With nothing picked to share it changes nothing.
        Otherwise every friend with the id gets the share message as its last
        message, and the pick is cleared. */
    method HandleInternalShare(friendId: string)
      requires Valid()
      modifies this
      ensures Valid()
      ensures old(sharingCrashout).None? ==> Snapshot() == old(Snapshot())
      ensures old(sharingCrashout).Some? ==>
                Snapshot() == old(Snapshot()).(
                  friends := DeliverTo(old(friends), friendId, ShareMessage(old(sharingCrashout).value)),
                  sharingCrashout := None)
    {
      if sharingCrashout.Some? {
        var shared := sharingCrashout.value;
        sharingCrashout := None;
        friends := DeliverTo(friends, friendId, ShareMessage(shared));
      }
    }

    /** The entries the search view lists. */
    function Searched(): (r: seq<Crashout>)
      reads this
      ensures forall i :: 0 <= i < |r| ==> r[i] in history && JsString.Includes(r[i].description, searchQuery)
    {
      SearchResults(history, searchQuery)
    }
  }
}
