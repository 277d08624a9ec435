/** The callback handler: one page counter updated from the pressed button's
    token, then the pressed message re-rendered with the page view when the
    counter is on a cafe page.

    The counter is a single process-wide value: nothing here is keyed by chat,
    so a press in one chat moves the page every other chat sees next. */
module Navigation {
  import opened Options
  import opened Tokens
  import opened Views

  /** The chat and id of a message already shown, the target of an edit. */
  datatype MessageRef = MessageRef(chatId: int, messageId: int)

  /** What the handlers ask the chat platform to do. */
  datatype Action =
    | SendNew(chatId: int, view: View)
    | EditExisting(target: MessageRef, view: View)

  /** The page counter after handling an update, and the actions taken, in order. */
  datatype Transition = Transition(page: int, actions: seq<Action>)

  /** The counter before any update: no cafe page is shown. */
  const InitialPage: int := 0

  /** 0 is the category menu, 1..3 the cafe pages. */
  predicate InRange(page: int) {
    0 <= page <= MaxPage
  }

  /** The first switch of the callback handler: update the counter and take the
      token's own action. */
  function ApplyToken(page: int, token: Token, pressed: MessageRef, catalog: Catalog): (r: Transition)
    ensures InRange(page) ==> InRange(r.page)
    ensures token in {Food, BackToMain} ==> InRange(r.page)
    ensures r.page != page ==> token in {Food, BackToMain, Next, Back}
  {
    match token
    case Food => Transition(MinPage, [])
    case BackToMain => Transition(InitialPage, [EditExisting(pressed, MainMenuView())])
    case Next => Transition(if page < MaxPage then page + 1 else page, [])
    case Back => Transition(if page > MinPage then page - 1 else page, [])
    case CafeItem(n) =>
      if 1 <= n <= CafeCount
      then Transition(page, [SendNew(pressed.chatId, CafeDetailView(catalog[n - 1]))])
      else Transition(page, [])
    case Unrecognised => Transition(page, [])
  }

  /** The second switch: re-render the pressed message when `page` is a cafe page. */
  function PageEdit(page: int, pressed: MessageRef): (edits: seq<Action>)
    ensures |edits| <= 1
    ensures |edits| == 1 <==> MinPage <= page <= MaxPage
    ensures forall a :: a in edits ==> a.EditExisting? && a.target == pressed && IsPageView(a.view)
  {
    if MinPage <= page <= MaxPage then [EditExisting(pressed, PageView(page))] else []
  }

  /** Handle a press of an inline button with callback `data` on message `pressed`. */
  function OnCallback(page: int, data: Option<string>, pressed: MessageRef, catalog: Catalog): (r: Transition)
    ensures InRange(page) ==> InRange(r.page)
    ensures r.page != page ==> Parse(data) in {Food, BackToMain, Next, Back}
    ensures forall a :: a in r.actions && a.EditExisting? ==> a.target == pressed
    ensures (exists a :: a in r.actions && a.SendNew?) <==> Parse(data).CafeItem?
    ensures |r.actions| <= 2
    ensures Parse(data) == Unrecognised && !(MinPage <= page <= MaxPage) ==> r.actions == []
  {
    var t := ApplyToken(page, Parse(data), pressed, catalog);
    var r := Transition(t.page, t.actions + PageEdit(t.page, pressed));
    assert Parse(data).CafeItem? ==> r.actions[0].SendNew?;
    r
  }

  /** `Next` moves one page on, but never past the last page; from the
      category menu it opens page 1. */
  lemma NextStep(page: int, pressed: MessageRef, catalog: Catalog)
    ensures var r := OnCallback(page, Some("Next"), pressed, catalog);
      && r.page == (if page < MaxPage then page + 1 else page)
      && (page <= MaxPage ==> r.page <= MaxPage)
      && (page == InitialPage ==> r.page == MinPage)
      && r.actions == (if MinPage <= r.page <= MaxPage then [EditExisting(pressed, PageView(r.page))] else [])
  {
  }

  /** On the last page, pressing `Next` again changes nothing: the second press
      yields exactly the first press's outcome. */
  lemma NextIdempotentAtLastPage(page: int, pressed: MessageRef, catalog: Catalog)
    requires page >= MaxPage
    ensures var r := OnCallback(page, Some("Next"), pressed, catalog);
      && r.page == page
      && OnCallback(r.page, Some("Next"), pressed, catalog) == r
  {
  }

  /** `Back` moves one page back, but never below page 1; from the category
      menu it stays there and renders nothing. */
  lemma BackStep(page: int, pressed: MessageRef, catalog: Catalog)
    ensures var r := OnCallback(page, Some("Back"), pressed, catalog);
      && r.page == (if page > MinPage then page - 1 else page)
      && (page >= MinPage ==> r.page >= MinPage)
      && (page == InitialPage ==> r == Transition(InitialPage, []))
      && r.actions == (if MinPage <= r.page <= MaxPage then [EditExisting(pressed, PageView(r.page))] else [])
  {
  }

  /** Item tokens and unknown data leave the counter alone. An item token
      sends the item's detail as a new message, and then, as for unknown data,
      the only other action is the re-render of the pressed message with the
      current page when that is a cafe page. */
  lemma ItemKeepsPage(page: int, data: Option<string>, pressed: MessageRef, catalog: Catalog)
    requires Parse(data).CafeItem? || Parse(data) == Unrecognised
    ensures var r := OnCallback(page, data, pressed, catalog);
      && r.page == page
      && r.actions
         == (if Parse(data).CafeItem?
             then [SendNew(pressed.chatId, CafeDetailView(catalog[Parse(data).n - 1]))]
             else [])
            + (if MinPage <= page <= MaxPage then [EditExisting(pressed, PageView(page))] else [])
  {
  }

  /** After any press the pressed message is re-rendered with the view of the
      final page exactly when that page is 1, 2 or 3, as the last action. */
  lemma PageEditIff(page: int, data: Option<string>, pressed: MessageRef, catalog: Catalog)
    ensures var r := OnCallback(page, data, pressed, catalog);
      && ((exists a :: a in r.actions && a.EditExisting? && IsPageView(a.view))
          <==> MinPage <= r.page <= MaxPage)
      && (MinPage <= r.page <= MaxPage ==>
            r.actions[|r.actions| - 1] == EditExisting(pressed, PageView(r.page)))
  {
  }

  /** `BackToMain` returns to the category menu in place: one edit of the
      pressed message, and no page view. */
  lemma BackToMainEditsInPlace(page: int, pressed: MessageRef, catalog: Catalog)
    ensures OnCallback(page, Some("BackToMain"), pressed, catalog)
            == Transition(InitialPage, [EditExisting(pressed, MainMenuView())])
  {
  }

  /** `Food` opens page 1 in place, whatever page was current. */
  lemma FoodOpensFirstPage(page: int, pressed: MessageRef, catalog: Catalog)
    ensures OnCallback(page, Some("Food"), pressed, catalog)
            == Transition(MinPage, [EditExisting(pressed, PageView(MinPage))])
  {
  }

  /** While a cafe page is current, every press except `BackToMain` keeps a
      cafe page current and re-renders the pressed message with it. */
  lemma BrowsingStaysOnPages(page: int, data: Option<string>, pressed: MessageRef, catalog: Catalog)
    requires MinPage <= page <= MaxPage
    requires Parse(data) != BackToMain
    ensures var r := OnCallback(page, data, pressed, catalog);
      && MinPage <= r.page <= MaxPage
      && r.actions[|r.actions| - 1] == EditExisting(pressed, PageView(r.page))
  {
  }
}
