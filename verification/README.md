# Menu navigation of the AllCity Telegram bot

A Dafny model of the bot's update handling in `Program.cs`. It covers:

- the update router, which sends messages and edited messages to the text handler and callback queries to the callback handler;
- the text handler, which dispatches on the first space-separated word (`Menu` or anything else);
- the callback handler, a state machine over one integer page counter (0 = category menu, 1..3 = cafe pages) driven by the pressed button's callback data;
- the pure renderers: the category menu, the welcome message, the three cafe pages, and the cafe detail message.

Each send or edit the bot makes is an `Action` value: `SendNew(chat, view)` or `EditExisting(message, view)`.
Handling an update yields the new counter plus the actions in order (`Transition`).
`Run` threads the counter through a sequence of updates, the way the process-wide static field does.
The counter is not keyed by chat, and `CounterSharedAcrossChats` shows what that means: a press in one chat changes the shared counter, and the next press in any other chat continues from it. Nothing is re-rendered in the other chats; only the message that was pressed is edited.

Modules:

- `Options`: the optional value.
- `Strings`: the prefix-before-delimiter, split/join and framing helpers.
- `Tokens`: the callback strings and the switch cases they select.
- `Views`: the renderers and readers that recover what a rendered text shows.
- `Navigation`: the callback state machine.
- `Messages`: the text handler.
- `Router`: the update router and the receiving loop.

The cafe catalog is an opaque parameter, `Catalog`, a sequence of nine `Cafe` records. Only the detail text's layout is fixed.

Behaviour of the code that a reader might not expect, kept as written:

- The `Menu` text command sends a new category menu but does not reset the page counter (`MenuCommandKeepsPage`).
- Pressing a cafe button on a cafe page sends the detail message. It also edits the pressed message again with the current page view. An unknown token does the same on a cafe page; it is not a no-op there.
- `Next` from the category menu (counter 0) opens page 1. `Back` from counter 0 leaves it at 0.
- The detail keyboard always has the Instagram link button, whatever the link is.
- The welcome text is a plain constant, not an interpolated string, so it literally contains `{cityName}`.

The source's `int` counter cannot overflow. `Next` only increments below 3, `Back` only decrements above 1, and every other write stores 0 or 1. So unbounded `int` is exact here.

## Model

| member | source | states |
|---|---|---|
| Strings.UpTo | Program.cs:73 | the text before the first delimiter: a prefix of the text, free of the delimiter, ending at a delimiter or at the end |
| Strings.UpToUnique | Program.cs:73 | that prefix is the only one with those properties |
| Strings.Split | Program.cs:73 | splitting at a delimiter gives at least one piece; no piece holds the delimiter; the first is the text before the first delimiter; joining the pieces gives the text back |
| Strings.SplitJoin | Program.cs:73 | splitting undoes joining pieces that do not hold the delimiter |
| Messages.FirstToken | Program.cs:73 | element 0 of splitting at spaces: the longest space-free prefix, ending at a space or at the end |
| Tokens.Parse | Program.cs:166-247 | which switch case callback data selects; absent data selects none, and item tokens name items 1..9 only |
| Tokens.Format | Program.cs:287-383 | the non-empty callback string each button carries |
| Tokens.FormatThenParse | Program.cs:287-383 | every callback string a button carries selects that button's case: the item, Back and Next buttons here, Food (line 136) and Main (line 119) alike |
| Tokens.ParseThenFormat | Program.cs:166-247 | every recognised string is the one formatted for its token, so no two strings select the same case |
| Views.WelcomeView | Program.cs:81-104 | the welcome message has a resized reply keyboard with one key, whose first word is the menu command |
| Views.MainMenuView | Program.cs:130-138 | the category menu has one inline button, and it selects the Food case |
| Views.PageKeyboard | Program.cs:278-387 | a page keyboard is inline with three item rows plus a Back/Next row and a Main row |
| Views.PageButtons | Program.cs:278-387 | page p's item buttons select items 3p-2, 3p-1 and 3p in order; then Back and Next; then Main selecting BackToMain |
| Views.ItemOnExactlyOnePage | Program.cs:278-387 | each of the nine items has a button on exactly one page, page (n+2)/3 |
| Views.PageIndicator | Program.cs:252-257 | page p's view (`PageView`, built from `PageText` and `PageKeyboard`) shows the indicator p/3 on the line under its heading |
| Views.CafeInfoText | Program.cs:391-394 | the detail text of a cafe whose fields each fit on one line (no newline in the name, description, opening and closing times or phone) splits into exactly the ten lines of the layout |
| Views.CafeButtons | Program.cs:108-124 | the detail keyboard's link button opens the given link, and its Main button selects BackToMain |
| Views.CafeDetailView | Program.cs:389-399 | the detail message of a cafe with one-line fields and a one-word opening time shows every field: reading it back gives the cafe |
| Views.ScheduleRoundTrip | Program.cs:393 | the opening and closing times are read back from the `From X to Y` line |
| Navigation.ApplyToken | Program.cs:166-247 | the first switch keeps the counter in 0..3, and only Food, BackToMain, Next and Back change it |
| Navigation.PageEdit | Program.cs:249-275 | the second switch edits the pressed message with a page view exactly when the counter is 1, 2 or 3 |
| Navigation.OnCallback | Program.cs:161-276 | a press keeps the counter in 0..3; only the four navigation tokens change it; every edit targets the pressed message; a new message is sent exactly for an item token; at most two actions, none for unknown data off the cafe pages |
| Navigation.NextStep | Program.cs:177-180 | Next increments only below page 3, so it never passes 3, and from 0 it goes to 1; its only action is the edit of the pressed message to the page it lands on, when that is a cafe page |
| Navigation.NextIdempotentAtLastPage | Program.cs:164 | on the last page Next keeps the page, and a second press repeats the first press's outcome |
| Navigation.BackStep | Program.cs:181-184 | Back decrements only above page 1, so it never goes below 1; from 0 it stays at 0 and renders nothing; on a cafe page its only action is the edit of the pressed message to the page it lands on |
| Navigation.ItemKeepsPage | Program.cs:186-275 | item and unknown tokens keep the counter; the actions are exactly the item's detail as a new message (item tokens only) followed by the re-render of the current page when it is 1..3 |
| Navigation.PageEditIff | Program.cs:249-275 | a page view is rendered exactly when the final counter is 1..3, and then it is the final page's view as the last action |
| Navigation.BackToMainEditsInPlace | Program.cs:172-175 | BackToMain sets the counter to 0, and its one action edits the pressed message into the category menu |
| Navigation.FoodOpensFirstPage | Program.cs:168-170 | Food sets the counter to 1 and edits the pressed message into page 1, from any page |
| Navigation.BrowsingStaysOnPages | Program.cs:166-275 | on a cafe page every press but BackToMain keeps a cafe page and ends by re-rendering it |
| Messages.OnMessage | Program.cs:67-106 | a non-text message gets nothing; a text gets one new message in its chat, the category menu exactly when its first word is Menu and the welcome otherwise |
| Messages.MenuCommandIff | Program.cs:73-77 | a text opens the menu exactly when it is `Menu` or begins with `Menu ` |
| Messages.WelcomeKeyOpensMenu | Program.cs:81-93 | the welcome reply keyboard's one key sends text that opens the category menu |
| Router.Route | Program.cs:42-55 | messages and edited messages go to the text handler with the message, callback queries to the callback handler, and nothing else to either |
| Router.Handle | Program.cs:40-65 | only callbacks change the counter; the counter stays in 0..3; text updates get the text handler's actions, callback updates the callback handler's whole outcome; chosen inline results and other kinds do nothing |
| Router.Run | Program.cs:158 | over any sequence of updates the shared counter stays in 0..3, and without callbacks it does not change |
| Router.Receive | Program.cs:22 | handling updates one by one from counter 0 gives the sequential outcome, with the counter in 0..3 |
| Router.EditedMessageLikeMessage | Program.cs:50-51 | an edited message is answered like a new one |
| Router.BrowsingKeepsPage | Program.cs:166-184 | from a cafe page, updates without a Main press keep a cafe page current |
| Router.RunAppend | Program.cs:158 | the unfolding step used by `RunPrefix`: handling one more update from the counter the run ends on gives the run's new counter, and appends that update's actions |
| Router.RunPrefix | Program.cs:158 | a run of two stretches of updates continues the second from the counter the first ends on: it ends on the counter the second stretch ends on, and its actions are the first stretch's followed by the second's |
| Router.FoodThenMainReturnsToMenu | Program.cs:168-175 | after Food and any browsing, a cafe page is current, and a Main press then returns the counter to 0 |
| Router.NextThreeTimesFromFirstPage | Program.cs:177-180 | three Next presses from page 1 give pages 2, 3, 3, and the third renders what the second did |
| Router.FifthItemOnSecondPage | Program.cs:213-219 | cafe5 on page 2 sends item 5's detail, re-renders page 2 and keeps the counter |
| Router.MenuCommandKeepsPage | Program.cs:73-75 | the Menu command sends a new category menu and leaves the counter as it was |
| Router.CounterSharedAcrossChats | Program.cs:158 | after a Food press in one chat, a Next press in another chat moves the shared counter to 2 and shows page 2 there |

`PageText` and `PageView` carry no contract of their own; `PageIndicator` and `PageButtons` state what they show. The detail text is written as its ten lines (bold name, empty line, Description heading, description, empty line, Schedule heading, `From X to Y`, empty line, Contacts heading, phone line) joined with newlines, which is the string the source concatenates.

## Left out

- Client construction, `StartReceiving` polling, `Console.ReadLine` and cancellation in `Main`: process wiring. Updates arrive as a sequence handed to `Receive`.
- `HandleErrorAsync` and the try/catch around the handlers: console logging. Failures of the chat platform are not modelled either. For example, editing a message into identical content is refused, which makes the re-render after `Next` on page 3 invisible. Each action is the request the bot makes.
- The typing indicator (`SendChatActionAsync`), `Task.Delay`, HTML parse mode and `Console.WriteLine`: timing and transport side effects with no effect on state or content.
- A callback query without a message: the model always gives a callback the message it was pressed on. In the source the counter is written first and keeps its new value. The handler then throws at the first use of the message. That is the typing indicator (line 128) after BackToMain, and the detail send (line 396) after a cafe press. In every other case it is the page edit (lines 253, 261 and 269), reached whenever the counter ends on a cafe page. So Food always throws, and so does Next, which always ends on a cafe page. Back, or unrecognised data, with the counter at 0 never uses the message and does not throw.
- Views.CafeInfoText: splitting the text back into its ten lines is promised only for cafes whose shown fields hold no newline, because a newline inside a field makes extra lines; every cafe of the catalog meets this.
- Views.CafeDetailView: reading the detail back is promised only for cafes whose fields hold no newline and whose opening time holds no space, because otherwise the lines and the `From X to Y` line are ambiguous; every cafe of the catalog meets this.
- Concurrency: the model handles updates strictly one after another and does not model interleavings of concurrent handlers on the shared counter.
- The catalog strings (names, descriptions, hours, phones, links): an opaque `Catalog` parameter. The button captions `Cafe 1`..`Cafe 9` are rendered as in the source.
- Message types other than text are a single `OtherContent` case. Update kinds other than the four the router names are `OtherUpdate`.
