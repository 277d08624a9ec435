/** The callback data strings attached to inline buttons, and their meaning. */
module Tokens {
  import opened Options

  /** What a button press asks for: the category, the main menu, a page step,
      one catalog item, or something the handler has no case for. */
  datatype Token = Food | BackToMain | Next | Back | CafeItem(n: int) | Unrecognised

  /** Number of catalog items, each addressed by its own token `cafe1`..`cafe9`. */
  const CafeCount: int := 9

  /** Prefix of every item token. */
  const ItemPrefix: string := "cafe"

  function DigitChar(d: int): (c: char)
    requires 0 <= d <= 9
    ensures '0' <= c <= '9' && DigitValue(c) == d
  {
    (('0' as int) + d) as char
  }

  function DigitValue(c: char): int {
    c as int - '0' as int
  }

  /** Tokens that some callback string stands for. */
  predicate Valid(t: Token) {
    match t
    case Unrecognised => false
    case CafeItem(n) => 1 <= n <= CafeCount
    case _ => true
  }

  /** The callback string a button carries for token `t`. */
  function Format(t: Token): (s: string)
    requires Valid(t)
    ensures |s| > 0
  {
    match t
    case Food => "Food"
    case BackToMain => "BackToMain"
    case Next => "Next"
    case Back => "Back"
    case CafeItem(n) => ItemPrefix + [DigitChar(n)]
  }

  /** The case of the callback switch that `data` selects; absent data and any
      string outside the switch's cases select none of them. */
  function Parse(data: Option<string>): (t: Token)
    ensures t != Unrecognised ==> data.Some? && Valid(t)
    ensures data.None? ==> t == Unrecognised
  {
    match data
    case None => Unrecognised
    case Some(s) =>
      if s == "Food" then Food
      else if s == "BackToMain" then BackToMain
      else if s == "Next" then Next
      else if s == "Back" then Back
      else if |s| == 5 && s[..4] == ItemPrefix && '1' <= s[4] <= '9' then CafeItem(DigitValue(s[4]))
      else Unrecognised
  }

  /** Every token a button can carry is read back as that token. */
  lemma FormatThenParse(t: Token)
    requires Valid(t)
    ensures Parse(Some(Format(t))) == t
  {
  }

  /** Every string the switch recognises is the formatted form of its token:
      no two strings select the same case. */
  lemma ParseThenFormat(s: string)
    requires Parse(Some(s)) != Unrecognised
    ensures Format(Parse(Some(s))) == s
  {
  }
}
