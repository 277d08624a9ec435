/** The text handler: a text message whose first space-separated word is
    `Menu` gets a new category menu, any other text the welcome message, and a
    message without text nothing. It never touches the page counter. */
module Messages {
  import opened Strings
  import opened Views
  import opened Navigation

  /** Whether a message carries text; photos, stickers and the rest do not. */
  datatype MessageType = TextMessage | OtherContent

  datatype Message = Message(chatId: int, messageId: int, kind: MessageType, text: string)

  /** The first word of a text, split at single spaces only: the longest
      space-free prefix. */
  function FirstToken(s: string): (w: string)
    ensures w <= s && ' ' !in w
    ensures |w| < |s| ==> s[|w|] == ' '
  {
    Split(s, ' ')[0]
  }

  function OnMessage(m: Message): (actions: seq<Action>)
    ensures m.kind != TextMessage ==> actions == []
    ensures m.kind == TextMessage ==>
      |actions| == 1 && actions[0].SendNew? && actions[0].chatId == m.chatId
    ensures m.kind == TextMessage ==>
      (actions[0].view == MainMenuView() <==> FirstToken(m.text) == MenuCommand)
    ensures m.kind == TextMessage ==>
      (actions[0].view == WelcomeView() <==> FirstToken(m.text) != MenuCommand)
  {
    if m.kind != TextMessage then []
    else if FirstToken(m.text) == MenuCommand then [SendNew(m.chatId, MainMenuView())]
    else [SendNew(m.chatId, WelcomeView())]
  }

  /** A text opens the menu exactly when it is `Menu` or starts with `Menu `;
      `Menu2`, ` Menu` and `menu` get the welcome message. */
  lemma MenuCommandIff(s: string)
    ensures FirstToken(s) == MenuCommand <==> s == MenuCommand || MenuCommand + " " <= s
  {
    if s == MenuCommand {
      UpToUnique(s, ' ', MenuCommand);
    } else if MenuCommand + " " <= s {
      assert s[|MenuCommand|] == ' ';
      UpToUnique(s, ' ', MenuCommand);
    }
    if FirstToken(s) == MenuCommand && s != MenuCommand {
      assert s[..|MenuCommand| + 1] == MenuCommand + " ";
    }
  }

  /** The welcome keyboard's one key sends the text that opens the category menu. */
  lemma WelcomeKeyOpensMenu(chatId: int, messageId: int)
    ensures WelcomeView().keyboard.ReplyKeyboard?
    ensures var key := WelcomeView().keyboard.keys[0][0];
      OnMessage(Message(chatId, messageId, TextMessage, key)) == [SendNew(chatId, MainMenuView())]
  {
  }
}
