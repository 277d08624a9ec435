/** The pure renderers: the main menu, the welcome message, the three cafe
    pages and the cafe detail message, each a text with a keyboard. */
module Views {
  import opened Options
  import opened Strings
  import opened Tokens

  /** An inline button either reports callback data or opens a link. */
  datatype Button = CallbackButton(caption: string, data: string) | UrlButton(caption: string, url: string)

  /** Inline keyboards hang under a message; a reply keyboard replaces the
      user's keyboard and sends its key's text as a message. */
  datatype Keyboard =
    | InlineKeyboard(rows: seq<seq<Button>>)
    | ReplyKeyboard(keys: seq<seq<string>>, resize: bool)

  datatype View = View(text: string, keyboard: Keyboard)

  /** One catalog entry, with the fields the detail message shows. */
  datatype Cafe = Cafe(name: string, description: string, workStart: string, workEnd: string,
                       phone: string, instagram: string)

  /** The catalog is static data, indexed 0..8 for items 1..9. */
  type Catalog = c: seq<Cafe> | |c| == CafeCount witness seq(9, _ => Cafe("", "", "", "", "", ""))

  const PageSize: int := 3
  const MinPage: int := 1
  const MaxPage: int := 3

  /** The text command that opens the category menu. */
  const MenuCommand: string := "Menu"

  /** The greeting, with a resized reply keyboard whose one key's first word
      is the menu command. */
  function WelcomeView(): (v: View)
    ensures v.keyboard.ReplyKeyboard? && v.keyboard.resize
    ensures |v.keyboard.keys| == 1 && |v.keyboard.keys[0]| == 1
    ensures Split(v.keyboard.keys[0][0], ' ')[0] == MenuCommand
  {
    UpToUnique(MenuCommand, ' ', MenuCommand);
    View("<b>AllCity</b>\n\nAll activities in <i>{cityName}</i>", ReplyKeyboard([[MenuCommand]], true))
  }

  const MainButton: Button := CallbackButton("Main", Format(BackToMain))

  /** The category menu: a single inline button, selecting the one category. */
  function MainMenuView(): (v: View)
    ensures v.keyboard.InlineKeyboard? && |v.keyboard.rows| == 1 && |v.keyboard.rows[0]| == 1
    ensures v.keyboard.rows[0][0].CallbackButton? && Parse(Some(v.keyboard.rows[0][0].data)) == Food
  {
    FormatThenParse(Food);
    View("Select <i>category</i>", InlineKeyboard([[CallbackButton("Food", Format(Food))]]))
  }

  const BackLabel: string := "Back \U{2B05}\U{FE0F}"
  const NextLabel: string := "Next \U{27A1}\U{FE0F}"

  /** The item shown first on `page`. */
  function FirstItemOf(page: int): int {
    PageSize * (page - 1) + 1
  }

  function ItemButton(n: int): Button
    requires 1 <= n <= CafeCount
  {
    CallbackButton("Cafe " + [DigitChar(n)], Format(CafeItem(n)))
  }

  /** One row per item of the page, a Back/Next row, then a Main row. */
  function PageKeyboard(page: int): (k: Keyboard)
    requires MinPage <= page <= MaxPage
    ensures k.InlineKeyboard? && |k.rows| == PageSize + 2
  {
    var first := FirstItemOf(page);
    InlineKeyboard([[ItemButton(first)], [ItemButton(first + 1)], [ItemButton(first + 2)],
                    [CallbackButton(BackLabel, Format(Back)), CallbackButton(NextLabel, Format(Next))],
                    [MainButton]])
  }

  const PageHeading: string := "Select <i>cafe</i>"

  function PageText(page: int): string
    requires MinPage <= page <= MaxPage
  {
    PageHeading + "\n<b>" + [DigitChar(page)] + "/" + [DigitChar(MaxPage)] + "</b>"
  }

  function PageView(page: int): View
    requires MinPage <= page <= MaxPage
  {
    View(PageText(page), PageKeyboard(page))
  }

  /** Page `p`'s view shows the indicator `p/3` on the line under its heading. */
  lemma PageIndicator(page: int)
    requires MinPage <= page <= MaxPage
    ensures IndicatorOf(PageView(page).text) == Some((page, MaxPage))
  {
    var fraction := [DigitChar(page)] + "/" + [DigitChar(MaxPage)];
    var line := "<b>" + fraction + "</b>";
    assert PageText(page) == Join([PageHeading, line], '\n');
    SplitJoin([PageHeading, line], '\n');
    BetweenFramed("<b>", fraction, "</b>");
  }

  const PhoneLabel: string := "Phone number: "

  /** The ten lines of a cafe's detail text: bold name, then the description,
      schedule and contacts sections, each a heading line after an empty line. */
  function DetailLines(c: Cafe): seq<string> {
    [ "<b>" + c.name + "</b>",
      "", "<i>Description</i>:", c.description,
      "", "<i>Schedule</i>:", "From " + c.workStart + " to " + c.workEnd,
      "", "<i>Contacts</i>:", PhoneLabel + c.phone ]
  }

  /** Cafes whose shown fields each fit on one line. */
  predicate OneLineFields(c: Cafe) {
    && '\n' !in c.name && '\n' !in c.description && '\n' !in c.workStart
    && '\n' !in c.workEnd && '\n' !in c.phone
  }

  /** Cafes whose fields fit on one line and whose opening time is one word. */
  predicate Displayable(c: Cafe) {
    OneLineFields(c) && ' ' !in c.workStart
  }

  /** The detail text is the ten lines joined; for a cafe whose fields each fit
      on one line it splits back into exactly those lines. */
  function CafeInfoText(c: Cafe): (text: string)
    ensures OneLineFields(c) ==> Split(text, '\n') == DetailLines(c)
  {
    var lines := DetailLines(c);
    if OneLineFields(c) then
      SplitJoin(lines, '\n');
      Join(lines, '\n')
    else Join(lines, '\n')
  }

  /** A link button to the cafe's page and a Main button back to the category menu. */
  function CafeButtons(link: string): (k: Keyboard)
    ensures LinkOf(k) == Some(link)
    ensures |k.rows[1]| == 1 && k.rows[1][0].CallbackButton? && Parse(Some(k.rows[1][0].data)) == BackToMain
  {
    FormatThenParse(BackToMain);
    InlineKeyboard([[UrlButton("Instagram", link)], [MainButton]])
  }

  /** The detail message of a displayable cafe shows every field of it. */
  function CafeDetailView(c: Cafe): (v: View)
    ensures Displayable(c) ==> DetailOf(v) == Some(c)
  {
    var v := View(CafeInfoText(c), CafeButtons(c.instagram));
    if Displayable(c) then
      BetweenFramed("<b>", c.name, "</b>");
      ScheduleRoundTrip(c.workStart, c.workEnd);
      BetweenFramed(PhoneLabel, c.phone, "");
      assert PhoneLabel + c.phone == PhoneLabel + c.phone + "";
      v
    else v
  }

  /** Views that show one of the cafe pages. */
  ghost predicate IsPageView(v: View) {
    exists p :: MinPage <= p <= MaxPage && v == PageView(p)
  }

  // Inverse readers: what a rendered view shows, recovered from its text and keyboard.

  /** The page indicator `p/total` on the second line of a page text. */
  function IndicatorOf(text: string): Option<(int, int)> {
    var lines := Split(text, '\n');
    if |lines| != 2 then None
    else match Between(lines[1], "<b>", "</b>")
      case Some(f) =>
        if |f| == 3 && f[1] == '/' && '0' <= f[0] <= '9' && '0' <= f[2] <= '9'
        then Some((DigitValue(f[0]), DigitValue(f[2])))
        else None
      case None => None
  }

  /** Opening and closing time from a `From X to Y` line. */
  function ScheduleOf(line: string): Option<(string, string)> {
    match Between(line, "From ", "")
    case None => None
    case Some(times) =>
      var start := UpTo(times, ' ');
      match Between(times[|start|..], " to ", "")
      case None => None
      case Some(end) => Some((start, end))
  }

  lemma ScheduleRoundTrip(start: string, end: string)
    requires ' ' !in start
    ensures ScheduleOf("From " + start + " to " + end) == Some((start, end))
  {
    var times := start + " to " + end;
    assert "From " + start + " to " + end == "From " + times + "";
    BetweenFramed("From ", times, "");
    assert times[|start|] == ' ';
    UpToUnique(times, ' ', start);
    assert times[|start|..] == " to " + end + "";
    BetweenFramed(" to ", end, "");
  }

  /** The link of a detail keyboard. */
  function LinkOf(k: Keyboard): Option<string> {
    if k.InlineKeyboard? && |k.rows| == 2 && |k.rows[0]| == 1 && k.rows[0][0].UrlButton?
       && k.rows[1] == [MainButton]
    then Some(k.rows[0][0].url)
    else None
  }

  /** The cafe a detail view shows, when the view has the detail layout. */
  function DetailOf(v: View): Option<Cafe> {
    var lines := Split(v.text, '\n');
    if |lines| != 10 || lines[1] != "" || lines[2] != "<i>Description</i>:" || lines[4] != ""
       || lines[5] != "<i>Schedule</i>:" || lines[7] != "" || lines[8] != "<i>Contacts</i>:"
    then None
    else match (Between(lines[0], "<b>", "</b>"), ScheduleOf(lines[6]), Between(lines[9], PhoneLabel, ""), LinkOf(v.keyboard))
      case (Some(name), Some((start, end)), Some(phone), Some(link)) =>
        Some(Cafe(name, lines[3], start, end, phone, link))
      case _ => None
  }

  /** The item buttons of page `p` carry the tokens of items 3p-2, 3p-1 and 3p
      in that order; the fourth row steps Back and Next; the last returns to Main. */
  lemma PageButtons(page: int)
    requires MinPage <= page <= MaxPage
    ensures var rows := PageKeyboard(page).rows;
      && (forall i :: 0 <= i < PageSize ==>
            |rows[i]| == 1 && rows[i][0].CallbackButton?
            && Parse(Some(rows[i][0].data)) == CafeItem(PageSize * page - 2 + i))
      && |rows[PageSize]| == 2
      && rows[PageSize][0].CallbackButton? && Parse(Some(rows[PageSize][0].data)) == Back
      && rows[PageSize][1].CallbackButton? && Parse(Some(rows[PageSize][1].data)) == Next
      && rows[PageSize + 1] == [MainButton] && Parse(Some(MainButton.data)) == BackToMain
  {
  }

  /** Every catalog item has a button on exactly one page, the page (n+2)/3. */
  lemma ItemOnExactlyOnePage(n: int, page: int)
    requires 1 <= n <= CafeCount
    requires MinPage <= page <= MaxPage
    ensures (exists i :: 0 <= i < PageSize && Parse(Some(PageKeyboard(page).rows[i][0].data)) == CafeItem(n))
            <==> page == (n + 2) / PageSize
  {
    PageButtons(page);
    if page == (n + 2) / PageSize {
      var i := n - FirstItemOf(page);
      assert Parse(Some(PageKeyboard(page).rows[i][0].data)) == CafeItem(n);
    }
  }
}
