/** The update router, and the receiving loop that feeds it one update at a
    time with the page counter threaded from each update to the next. */
module Router {
  import opened Options
  import opened Tokens
  import opened Views
  import opened Navigation
  import opened Messages

  datatype CallbackQuery = CallbackQuery(data: Option<string>, message: MessageRef)

  /** The update kinds the router tells apart; every other kind is `OtherUpdate`. */
  datatype Update =
    | MessageUpdate(message: Message)
    | EditedMessageUpdate(message: Message)
    | CallbackQueryUpdate(query: CallbackQuery)
    | ChosenInlineResultUpdate
    | OtherUpdate(kind: string)

  /** The handler an update is sent to. */
  datatype Handler = TextHandler(message: Message) | CallbackHandler(query: CallbackQuery) | NoHandler

  function Route(u: Update): (h: Handler)
    ensures h.TextHandler? <==> u.MessageUpdate? || u.EditedMessageUpdate?
    ensures h.TextHandler? ==> h.message == u.message
    ensures h.CallbackHandler? <==> u.CallbackQueryUpdate?
    ensures h.CallbackHandler? ==> h.query == u.query
  {
    match u
    case MessageUpdate(m) => TextHandler(m)
    case EditedMessageUpdate(m) => TextHandler(m)
    case CallbackQueryUpdate(q) => CallbackHandler(q)
    case ChosenInlineResultUpdate => NoHandler
    case OtherUpdate(_) => NoHandler
  }

  function Handle(page: int, u: Update, catalog: Catalog): (r: Transition)
    ensures InRange(page) ==> InRange(r.page)
    ensures !u.CallbackQueryUpdate? ==> r.page == page
    ensures u.ChosenInlineResultUpdate? || u.OtherUpdate? ==> r.actions == []
    ensures u.MessageUpdate? || u.EditedMessageUpdate? ==> r.actions == OnMessage(u.message)
    ensures u.CallbackQueryUpdate? ==> r == OnCallback(page, u.query.data, u.query.message, catalog)
  {
    match Route(u)
    case TextHandler(m) => Transition(page, OnMessage(m))
    case CallbackHandler(q) => OnCallback(page, q.data, q.message, catalog)
    case NoHandler => Transition(page, [])
  }

  /** Handle `updates` in order from `page`, collecting every action. */
  function Run(page: int, updates: seq<Update>, catalog: Catalog): (r: Transition)
    ensures InRange(page) ==> InRange(r.page)
    ensures (forall i :: 0 <= i < |updates| ==> !updates[i].CallbackQueryUpdate?) ==> r.page == page
    decreases |updates|
  {
    if |updates| == 0 then Transition(page, [])
    else
      var before := Run(page, updates[..|updates| - 1], catalog);
      var last := Handle(before.page, updates[|updates| - 1], catalog);
      Transition(last.page, before.actions + last.actions)
  }

  /** The receiving loop from process start, where the counter is 0. */
  method Receive(updates: seq<Update>, catalog: Catalog) returns (page: int, actions: seq<Action>)
    ensures Run(InitialPage, updates, catalog) == Transition(page, actions)
    ensures InRange(page)
  {
    page := InitialPage;
    actions := [];
    var i := 0;
    while i < |updates|
      invariant 0 <= i <= |updates|
      invariant Run(InitialPage, updates[..i], catalog) == Transition(page, actions)
    {
      var t := Handle(page, updates[i], catalog);
      assert updates[..i + 1][..i] == updates[..i];
      page := t.page;
      actions := actions + t.actions;
      i := i + 1;
    }
    assert updates[..|updates|] == updates;
  }

  /** A message and an edit of it are answered alike. */
  lemma EditedMessageLikeMessage(page: int, m: Message, catalog: Catalog)
    ensures Handle(page, EditedMessageUpdate(m), catalog) == Handle(page, MessageUpdate(m), catalog)
  {
  }

  /** A press of a button that is not `Main`. */
  predicate BrowsingPress(u: Update) {
    u.CallbackQueryUpdate? ==> Parse(u.query.data) != BackToMain
  }

  /** Starting on a cafe page, updates without a `Main` press keep a cafe page current. */
  lemma {:induction false} BrowsingKeepsPage(page: int, updates: seq<Update>, catalog: Catalog)
    requires MinPage <= page <= MaxPage
    requires forall i :: 0 <= i < |updates| ==> BrowsingPress(updates[i])
    ensures MinPage <= Run(page, updates, catalog).page <= MaxPage
    decreases |updates|
  {
    if |updates| > 0 {
      var prefix := updates[..|updates| - 1];
      assert forall i :: 0 <= i < |prefix| ==> BrowsingPress(prefix[i]) by {
        forall i | 0 <= i < |prefix| ensures BrowsingPress(prefix[i]) {
          assert prefix[i] == updates[i];
        }
      }
      BrowsingKeepsPage(page, prefix, catalog);
      var before := Run(page, prefix, catalog);
      var u := updates[|updates| - 1];
      if u.CallbackQueryUpdate? {
        BrowsingStaysOnPages(before.page, u.query.data, u.query.message, catalog);
      }
    }
  }

  /** Handling one more update extends the run by that update's outcome. */
  lemma RunAppend(page: int, updates: seq<Update>, u: Update, catalog: Catalog)
    ensures var before := Run(page, updates, catalog);
      var last := Handle(before.page, u, catalog);
      Run(page, updates + [u], catalog) == Transition(last.page, before.actions + last.actions)
  {
    assert (updates + [u])[..|updates|] == updates;
  }

  /** Choosing the category and then browsing any way keeps a cafe page
      current; pressing `Main` after that always returns to the category menu. */
  lemma FoodThenMainReturnsToMenu(page: int, browsing: seq<Update>, pressed: MessageRef, catalog: Catalog)
    requires forall i :: 0 <= i < |browsing| ==> BrowsingPress(browsing[i])
    ensures var food := CallbackQueryUpdate(CallbackQuery(Some("Food"), pressed));
      var main := CallbackQueryUpdate(CallbackQuery(Some("BackToMain"), pressed));
      && MinPage <= Run(page, [food] + browsing, catalog).page <= MaxPage
      && Run(page, [food] + browsing + [main], catalog).page == InitialPage
  {
    var food := CallbackQueryUpdate(CallbackQuery(Some("Food"), pressed));
    var main := CallbackQueryUpdate(CallbackQuery(Some("BackToMain"), pressed));
    RunAppend(page, [], food, catalog);
    assert [] + [food] == [food];
    RunPrefix(page, [food], browsing, catalog);
    BrowsingKeepsPage(MinPage, browsing, catalog);
    RunAppend(page, [food] + browsing, main, catalog);
  }

  /** Running `front` and then `rest` is running `rest` from the page `front`
      ends on: the run ends where that second run ends, and its actions are the
      first run's followed by the second run's. */
  lemma {:induction false} RunPrefix(page: int, front: seq<Update>, rest: seq<Update>, catalog: Catalog)
    ensures var first := Run(page, front, catalog);
      var second := Run(first.page, rest, catalog);
      Run(page, front + rest, catalog) == Transition(second.page, first.actions + second.actions)
    decreases |rest|
  {
    if |rest| == 0 {
      assert front + rest == front;
      assert Run(page, front, catalog).actions + [] == Run(page, front, catalog).actions;
    } else {
      var rest' := rest[..|rest| - 1];
      assert rest == rest' + [rest[|rest| - 1]];
      RunPrefix(page, front, rest', catalog);
      RunPrefixStep(page, front, rest', rest[|rest| - 1], catalog);
    }
  }

  /** The inductive step of `RunPrefix`: the split survives one more update. */
  lemma RunPrefixStep(page: int, front: seq<Update>, rest: seq<Update>, u: Update, catalog: Catalog)
    requires var first := Run(page, front, catalog);
      var second := Run(first.page, rest, catalog);
      Run(page, front + rest, catalog) == Transition(second.page, first.actions + second.actions)
    ensures var first := Run(page, front, catalog);
      var second := Run(first.page, rest + [u], catalog);
      Run(page, front + (rest + [u]), catalog) == Transition(second.page, first.actions + second.actions)
  {
    var first := Run(page, front, catalog);
    var second := Run(first.page, rest, catalog);
    var last := Handle(second.page, u, catalog);
    assert front + (rest + [u]) == (front + rest) + [u];
    RunAppend(page, front + rest, u, catalog);
    RunAppend(first.page, rest, u, catalog);
    ConcatAssociative(first.actions, second.actions, last.actions);
  }

  lemma ConcatAssociative<T>(a: seq<T>, b: seq<T>, c: seq<T>)
    ensures (a + b) + c == a + (b + c)
  {
  }

  function Press(data: string, pressed: MessageRef): Update {
    CallbackQueryUpdate(CallbackQuery(Some(data), pressed))
  }

  /** Three `Next` presses from page 1 show pages 2, 3 and 3; the third press
      renders the same as the second. */
  lemma NextThreeTimesFromFirstPage(pressed: MessageRef, catalog: Catalog)
    ensures var r1 := Handle(1, Press("Next", pressed), catalog);
      var r2 := Handle(r1.page, Press("Next", pressed), catalog);
      var r3 := Handle(r2.page, Press("Next", pressed), catalog);
      && r1.page == 2 && r2.page == 3 && r3.page == 3
      && r3.actions == r2.actions == [EditExisting(pressed, PageView(3))]
  {
  }

  /** Pressing `cafe5` on page 2 sends item 5's detail, re-renders page 2 and
      leaves the counter on 2. */
  lemma FifthItemOnSecondPage(pressed: MessageRef, catalog: Catalog)
    ensures Handle(2, Press("cafe5", pressed), catalog)
      == Transition(2, [SendNew(pressed.chatId, CafeDetailView(catalog[4])),
                        EditExisting(pressed, PageView(2))])
  {
    assert Parse(Some("cafe5")) == CafeItem(5);
    ItemKeepsPage(2, Some("cafe5"), pressed, catalog);
  }

  /** The `Menu` command sends a new category menu but keeps the counter:
      a later `Next` on an old page message continues from there. */
  lemma MenuCommandKeepsPage(m: Message, catalog: Catalog)
    requires m == Message(m.chatId, m.messageId, TextMessage, "Menu")
    ensures Handle(2, MessageUpdate(m), catalog) == Transition(2, [SendNew(m.chatId, MainMenuView())])
  {
  }

  /** The counter is shared by all chats: after one chat chooses the category,
      a `Next` press in any other chat moves on from that chat's page. */
  lemma CounterSharedAcrossChats(first: MessageRef, second: MessageRef, catalog: Catalog)
    requires first.chatId != second.chatId
    ensures var chosen := Handle(InitialPage, Press("Food", first), catalog);
      var moved := Handle(chosen.page, Press("Next", second), catalog);
      && chosen == Transition(1, [EditExisting(first, PageView(1))])
      && moved == Transition(2, [EditExisting(second, PageView(2))])
  {
    var chosen := Handle(InitialPage, Press("Food", first), catalog);
    assert chosen == Transition(1, [EditExisting(first, PageView(1))]) by {
      FoodOpensFirstPage(InitialPage, first, catalog);
    }
    assert Handle(1, Press("Next", second), catalog) == Transition(2, [EditExisting(second, PageView(2))]) by {
      BrowsingStaysOnPages(MinPage, Some("Next"), second, catalog);
    }
  }
}
