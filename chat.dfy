/**
 * The demo chat of app.js: the input guard of `sendMessage` and the canned
 * reply of `generateSimpleReply`.
 */
module Chat {
  import opened Wrappers
  import opened Text
  import opened Html

  const REPLY_PREFIX: string := "Réponse démo : j'ai bien reçu \""
  const REPLY_SUFFIX: string := "\" — pour une réponse détaillée, connecte un backend OpenAI."

  /** How many pieces of the user's message the reply repeats. */
  const MAX_ECHOED_WORDS: nat := 6

  /** `userText.split(/\s+/).slice(0, 6).join(' ')`. */
  function EchoedWords(t: string): string
  {
    var fs := Fields(t);
    Join(fs[..if |fs| < MAX_ECHOED_WORDS then |fs| else MAX_ECHOED_WORDS], " ")
  }

  /** A message of at most six pieces is echoed whole, with each whitespace
      run shown as a single space. */
  lemma ShortMessageEchoedWhole(t: string)
    requires |Fields(t)| <= MAX_ECHOED_WORDS
    ensures EchoedWords(t) == Collapse(t)
  {
    var fs := Fields(t);
    assert fs[..|fs|] == fs;
    JoinFieldsIsCollapse(t);
  }

  /** `generateSimpleReply(userText)`: the fixed prefix, the escaped echoed
      words, the fixed suffix. The middle part is exactly `escapeHtml` of the
      echoed words; it holds no `<`, `>`, `"` or `'` and decodes back to
      those words. */
  function GenerateSimpleReply(t: string): (r: string)
    ensures |r| >= |REPLY_PREFIX| + |REPLY_SUFFIX|
    ensures r[..|REPLY_PREFIX|] == REPLY_PREFIX
    ensures r[|r| - |REPLY_SUFFIX|..] == REPLY_SUFFIX
    ensures r[|REPLY_PREFIX|..|r| - |REPLY_SUFFIX|] == EscapeHtml(EchoedWords(t))
    ensures UnescapeHtml(r[|REPLY_PREFIX|..|r| - |REPLY_SUFFIX|]) == EchoedWords(t)
    ensures forall i :: |REPLY_PREFIX| <= i < |r| - |REPLY_SUFFIX| ==> !Unsafe(r[i])
  {
    var w := EchoedWords(t);
    EscapeRoundTrip(w);
    Framed(REPLY_PREFIX, EscapeHtml(w), REPLY_SUFFIX);
    REPLY_PREFIX + EscapeHtml(w) + REPLY_SUFFIX
  }

  lemma Framed(prefix: string, middle: string, suffix: string)
    ensures var r := prefix + middle + suffix;
            && r[..|prefix|] == prefix
            && r[|r| - |suffix|..] == suffix
            && r[|prefix|..|r| - |suffix|] == middle
            && forall i :: |prefix| <= i < |r| - |suffix| ==> r[i] == middle[i - |prefix|]
  {
  }

  /** The reply is written into the page with `textContent`, which shows the
      string as it is: the entities made by `escapeHtml` appear literally,
      so a user who types "R&D" reads "R&amp;D" in the reply. */
  lemma ReplyShowsEntities()
    ensures EchoedWords("R&D") == "R&D"
    ensures GenerateSimpleReply("R&D") == REPLY_PREFIX + "R&amp;D" + REPLY_SUFFIX
  {
    assert WordLength("R&D") == 3;
    assert Fields("R&D") == ["R&D"];
    assert EscapeHtml("R&D") == "R&amp;D";
  }

  /** The reply text as meant to be read: the echoed words verbatim between
      the prefix and the suffix. It is what the browser would show for
      `generateSimpleReply` if that string were parsed as HTML. */
  function ReplyText(t: string): (r: string)
    ensures var html := GenerateSimpleReply(t);
            r == REPLY_PREFIX + UnescapeHtml(html[|REPLY_PREFIX|..|html| - |REPLY_SUFFIX|]) + REPLY_SUFFIX
  {
    REPLY_PREFIX + EchoedWords(t) + REPLY_SUFFIX
  }

  /** One exchange of the chat box. */
  datatype ChatTurn = ChatTurn(userText: string, replyText: string)

  /** `sendMessage` for the input's current value: nothing when the trimmed
      value is empty, otherwise the trimmed text and the reply to it. */
  function SendMessage(value: string): (r: Option<ChatTurn>)
    ensures r.None? <==> AllSpace(value)
    ensures r.Some? ==> r.value.userText == Trim(value) && r.value.userText != ""
    ensures r.Some? ==> r.value.replyText == ReplyText(r.value.userText)
  {
    var text := Trim(value);
    if text == "" then None else Some(ChatTurn(text, ReplyText(text)))
  }

  /** In a chat turn every echoed piece is a real word: the message is
      trimmed, so no empty piece comes from leading or trailing whitespace. */
  lemma EchoedPiecesAreWords(value: string)
    requires SendMessage(value).Some?
    ensures forall i :: 0 <= i < |Fields(SendMessage(value).value.userText)| ==>
              Fields(SendMessage(value).value.userText)[i] != ""
  {
    FieldsOfTrimmedNonEmpty(Trim(value));
  }
}
