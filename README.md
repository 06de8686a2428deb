# Article interactions of the site script, in Dafny

A model of the state-keeping and text-handling logic of `app.js`, the browser
script of a small article site. It covers:

- the `lsGet` / `lsSet` helpers over the browser's key-value storage;
- the like and comment click handlers, which update the in-memory
  `likesStore` map and `commentsStore` array and then write them back;
- the ids given to buttons that carry no `data-id`;
- the selection of the "recent comments" panel (last 8, newest first);
- `escapeHtml`, with a decoder of the five entities it produces;
- the chat input guard and `generateSimpleReply`;
- the default theme and the theme button.

The likes and comments are a class, `Interactions.InteractionStore`. Its
fields `likes` and `comments` are updated in place by the click handlers,
and a ghost field `disk` stands for the persisted key-value store. Each
handler states its new state as a function of the old one (`Liked`,
`WithComment`). The properties are proved about those functions: each click
adds exactly one like, and a comment is appended only if it has
non-whitespace text. The handlers also state what is persisted and what a
later page load reads back. Everything else is pure functions and lemmas.

Likes in `app.js` only go up: a click always adds one, and there is no
per-user flag and no way to take a like back. Comments are one flat,
append-only list of `{articleId, text, date}` records, never grouped or
deleted.

Modules, one per section of `app.js`: `Wrappers` (Option), `Text` (trim,
split on `/\s+/`, join, decimal), `Html`, `Storage`, `Interactions`,
`Theme`, `Chat`.

## Model

| member | source | states |
|---|---|---|
| `Storage.LsGet` | app.js:16-19 | the stored value when the key holds a parsed non-null value; the fallback when the key is absent, holds null, or does not parse |
| `Storage.LsSet` | app.js:20-23 | an accepted write stores the value under the key; a refused write leaves storage unchanged and raises nothing |
| `Storage.ReadYourWrite` | app.js:16-23 | after an accepted write, reading that key returns the written value |
| `Storage.WriteLeavesOtherKeys` | app.js:20-23 | a write to one key, accepted or not, never changes what another key reads |
| `Interactions.ButtonId` | app.js:139 | an existing `data-id` (even an empty one) is kept; otherwise the id is `a_` followed by decimal digits, with no leading zero except for index 0, that read back as the button's index |
| `Interactions.DefaultIdUnique` | app.js:139 | any `a_` name made of digits without a leading zero that read as the index is the default id: the default id is exactly `a_` and the decimal index |
| `Text.CanonicalDecimal` | app.js:139 | a digit string with no leading zero is the decimal rendering of the number it reads as |
| `Interactions.DefaultIdsDistinct` | app.js:159 | two buttons of one class at different indices, both without `data-id`, get different ids |
| `Interactions.Liked` | app.js:150 | one click on `k` makes its count the old count (absent counts as 0) plus 1; every other key keeps its entry |
| `Interactions.ClicksCount` | app.js:150 | after any sequence of like clicks, each article's count has grown by exactly the number of clicks on it |
| `Interactions.AcceptedIff` | app.js:163 | the comment guard rejects exactly a cancelled prompt and text that is empty or all whitespace |
| `Interactions.CommentAppended` | app.js:162-165 | a rejected answer leaves the comments unchanged; an accepted one appends exactly one record at the end, with the button's id, the trimmed non-empty text and the date, and keeps all earlier records |
| `Interactions.AddedTextIsTrimmed` | app.js:164 | the stored comment text has no whitespace at either end |
| `Interactions.RecentComments` | app.js:201-206 | the placeholder (with the text "Aucun commentaire pour l'instant.") exactly when there are no comments; otherwise min(8, n) items, item i being comment n-1-i (newest first) |
| `Interactions.NewestFirst` | app.js:206 | right after a comment is appended, the panel shows it first and every other shown comment moves down by one |
| `Interactions.LikesWriteKeepsComments` | app.js:151 | writing the likes map, accepted or not, never changes the comment list a reload reads |
| `Interactions.CommentsWriteKeepsLikes` | app.js:166 | writing the comment list, accepted or not, never changes the likes map a reload reads |
| `Interactions.InteractionStore.Load` | app.js:132-133 | page load reads the likes map with fallback `{}` and the comment list with fallback `[]` from storage |
| `Interactions.InteractionStore.LikeClick` | app.js:149-152 | the likes become `Liked(old likes, id)` and the comments are untouched; the whole map is written under `nlm_likes`; after an accepted write, a reload reads exactly the new map; the shown count is the new count |
| `Interactions.InteractionStore.AddComment` | app.js:161-166 | `added` holds exactly when the answer has non-whitespace text; the comments become `WithComment(...)` (whose meaning `Interactions.CommentAppended` states); the list is written only when added; after an accepted write, a reload reads the new list; likes and the likes entry are untouched |
| `Interactions.InteractionStore.RenderCommentsPanel` | app.js:197-206 | the panel is the placeholder exactly when there are no comments, and otherwise is the recent-comments selection |
| `Html.Entity` | app.js:277 | each of `& < > " '` maps to a string starting with `&`, other characters to themselves; no replacement contains `< > " '` |
| `Html.EscapeHtml` | app.js:275-278 | the output is at least as long as the input and contains no `<`, `>`, `"` or `'` |
| `Html.EscapeRoundTrip` | app.js:277 | decoding the five entities recovers the input exactly |
| `Html.EscapeConcat` | app.js:277 | escaping works character by character: it distributes over concatenation |
| `Html.EscapePlainText` | app.js:277 | text without any of the five special characters is returned unchanged |
| `Html.EscapedAmpersands` | app.js:277 | every `&` in escaped text opens one of the five entities |
| `Text.Trim` | app.js:164 | the result is no longer than the input, starts and ends with non-whitespace, and is empty exactly when the input is all whitespace |
| `Text.TrimInfix` | app.js:164 | the trimmed text is the infix of the input that sits between a leading and a trailing run of whitespace only |
| `Text.TrimIdempotent` | app.js:227 | trimming twice gives what trimming once gives |
| `Text.Fields` | app.js:256 | `split(/\s+/)` gives at least one piece, and no piece contains whitespace |
| `Text.JoinFieldsIsCollapse` | app.js:256 | splitting on `/\s+/` and joining with `' '` equals replacing each whitespace run by one space |
| `Text.FieldsOfTrimmedNonEmpty` | app.js:256 | a non-empty string with no whitespace at either end splits into non-empty pieces only |
| `Text.DecimalRoundTrip` | app.js:139 | the decimal text of an index reads back as that index |
| `Text.DecimalInjective` | app.js:139 | different indices have different decimal texts |
| `Theme.SavedTheme` | app.js:39 | a missing or empty stored theme gives "dark"; any other stored text is kept |
| `Theme.StartsDark` | app.js:39-41 | dark mode at start-up exactly when the stored theme is missing, empty or exactly "dark" |
| `Theme.ToggleTheme` | app.js:60-64 | a click flips the mode and writes "dark" or "light", and a reload of that stored text starts in the new mode |
| `Theme.ToggleTwice` | app.js:60-64 | two clicks restore the mode and write the name of the original mode |
| `Chat.GenerateSimpleReply` | app.js:254-258 | the reply is the fixed prefix, then `escapeHtml` of the echoed words, then the fixed suffix; the middle contains no `< > " '` and decodes to the first at most 6 pieces of `split(/\s+/)` joined by single spaces |
| `Chat.ShortMessageEchoedWhole` | app.js:256 | a message of at most 6 pieces is echoed whole, with each whitespace run shown as one space |
| `Chat.ReplyShowsEntities` | app.js:236-237 | as written, the reply for "R&D" is the prefix, `R&amp;D` and the suffix, and `textContent` shows that string literally |
| `Chat.ReplyText` | app.js:237 | corrected reply text: the prefix, the HTML decoding of the escaped middle, and the suffix; that is, the echoed words verbatim |
| `Chat.SendMessage` | app.js:227-237 | a value that is all whitespace is ignored; otherwise the turn shows the trimmed non-empty text and the corrected reply `Chat.ReplyText` (the words as typed), not the escaped string app.js:237 assigns (see Findings) |
| `Chat.EchoedPiecesAreWords` | app.js:227-236 | in a chat turn every echoed piece is a non-empty word |

## Findings

| source | as written | input that shows it | evidently intended | confidence | as-written member | corrected member |
|---|---|---|---|---|---|---|
| app.js:236-237 | `generateSimpleReply` HTML-escapes the echoed words, but the reply is put in the page with `textContent`, which shows the string verbatim | the message `R&D` is echoed as `R&amp;D` (likewise `'` as `&#39;` and `"` as `&quot;`) | the reply shows the user's words as typed: escape only for `innerHTML`, or set `textContent` with unescaped text | high on the reading of the code; not executed | `Chat.ReplyShowsEntities` (about `Chat.GenerateSimpleReply`) | `Chat.ReplyText`, used by `Chat.SendMessage` |

## Left out

- DOM work is not modelled: the sidebar toggle, creating the theme button and its label, ripple, card tilt, fade-in, the focus ring, and building `innerHTML` for comments and chat lines. These are presentation only.
- Floating-point geometry of ripple and tilt is not modelled.
- `setTimeout` and `requestAnimationFrame` are not modelled. The chat reply is a plain function of the message, with no delay.
- `prompt`, `alert`, `FormData`, `navigator.share` and `navigator.clipboard` are foreign calls. The prompt result is an input (`Option<string>`, `None` for a cancelled prompt). The share handler and the contact form are not modelled; they keep no state.
- JSON and `localStorage` internals are not modelled. Storage is a map from key to what `JSON.parse` made of the stored text. Whether the browser accepted a write is a parameter. A `localStorage` that throws on read behaves like unparsable text.
- `Interactions.LoadedLikes` and `Interactions.LoadedComments` assume each key holds a value of its own shape. A stored value of another shape loads as the fallback; the script itself would go on with the wrongly shaped value.
- `Interactions.Count`, `Interactions.Liked` and `Interactions.InteractionStore.LikeClick`: ids that name members of `Object.prototype` are not modelled. `likesStore` is a plain object, so `likesStore[id] || 0` reads inherited members: `data-id="toString"` yields a string count and `data-id="__proto__"` is never stored. The model treats every id as an own key and gives a count of 1 in both cases.
- Like counts are natural numbers. Negative or fractional counts left in storage by other code are not modelled.
- `Date`, `toISOString` and `toLocaleString` are not modelled. A comment's date is an opaque text passed in by the caller.
- Whitespace for `trim` and `/\s/` is a fixed list of characters: the ECMAScript WhiteSpace and LineTerminator characters for the current Unicode space-separator set. A later Unicode revision could change it.
- `escapeHtml` on a non-string argument is not modelled (`String(str)` of a number, or `null`/`undefined` giving `''`). All of the script's callers pass strings.
- The theme read and write (app.js:39 and app.js:63) call `localStorage` without `try`, so they would throw where storage is disabled. The model takes the read as an input and the write as always taking effect.
- `initArticleInteractions` runs twice (app.js:194 and app.js:319), so each physical click runs each handler twice. The model's unit step is one handler run; `Interactions.ClicksCount` covers any sequence of runs. Listener registration is not modelled.
- The chat reply overwrites the whole loader paragraph, including its "AI :" label. The visible text is modelled only as the reply string.
