# gun-streams: message classification, stream names and graph writes

gun-streams is a browser chat/stream application whose storage and
replication belong to the Gun graph store. The code the application itself
writes is a set of small decisions inside two React components. This project
models those decisions in Dafny and proves what they promise:

- **`Streams`** (`src/components/Streams.js`):
  - `MessageContent` picks how a message's text is rendered. The choices are an
    image, an unknown attachment, a YouTube player, an embedded tweet, a
    horizontal rule, a link, or markdown (the default). The first pattern that
    matches wins.
  - The name shown for a stream falls back from the stream's own name to its
    id with the public-key prefix removed, and then to `Stream`.
  - The `editable` rule decides who may edit.
  - The drop handler turns dropped files into messages and stops at the first
    one over 1,000,000 characters.
- **`GunStreams`** (`src/components/GunStreams.js`):
  - Builds the ids of a stream's message set and of each message, in the legacy
    and the default naming.
  - Builds the exact `(record, field, value)` writes each user action hands to
    `put`: rename a stream, create a message, update a message field.
- **`Js`**: the few pieces of JavaScript runtime behaviour the model depends on:
  - truthiness;
  - `indexOf`;
  - `replace` with a string pattern, which removes only the first occurrence;
  - JavaScript truthiness of a stored field;
  - `String(v)`, which turns a plain object into `[object Object]`.

The model never calls `put`. Each action's writes come back as a `seq<Put>`.
`GunStreams.ApplyPuts` gives those writes a meaning on a local copy of the
graph, a map from record id to fields, applying them one after another. The
lemmas about what a batch changes, and what it leaves alone, are stated
against that local copy.

Each regular expression becomes a hand-written predicate:

- prefix tests for the anchored patterns;
- for the divider, "one or more copies of a single character among `.`, `-`,
  `*` and `~`";
- for the unanchored Twitter pattern, a search over every start position.

In that pattern the unescaped `.` matches one UTF-16 code unit other than a
line terminator, so a character outside the Basic Multilingual Plane cannot
stand for it. `TweetLinkAtIffPattern` proves that matching `\w+` as the whole
run of word characters is the same as the regular expression's reading.

## Model

Several functions that make the decisions carry no contract of their own,
and the rows below name the lemmas about them:

- `Streams.Classify` (src/components/Streams.js:165-221);
- `Streams.Editable` (17) and `Streams.AcceptsDrops` (32);
- `GunStreams.MessagesId` (src/components/GunStreams.js:17) and
  `GunStreams.MessageId` (54);
- `GunStreams.SetStreamName` (51), `GunStreams.UpdateMessage` (62) and
  `GunStreams.ToggleHighlight` (src/components/Streams.js:154);
- from the runtime, `Js.ValueTruthy` and `Js.ToString`. `Js.IndexOf` states
  its first-occurrence result in its own contract, on which `Js.RemoveFirst`
  rests.

| member | source | states |
|---|---|---|
| `Js.RemoveFirst` | src/components/Streams.js:24 | `replace` with a string pattern and an empty replacement removes only the first occurrence. Putting the pattern back at its first index gives the original string. With no occurrence the string is unchanged. |
| `Streams.ClassifyIsFirstMatch` | src/components/Streams.js:165-221 | Every text gets exactly one rendering. Its test matches, and no test before it in source order matches. |
| `Streams.ImageIff` | src/components/Streams.js:166-168 | The rendering is an image exactly when the text starts with `data:image/`, whatever follows. The image source is the text. |
| `Streams.DataUrlIsAttachment` | src/components/Streams.js:169-175 | The rendering is an unknown attachment exactly for `data:` texts that are not `data:image/`. A `data:` text is always an image or an attachment, so it never becomes a link or markdown. |
| `Streams.VideoIff` | src/components/Streams.js:176-190 | The rendering is a video exactly when the text starts with `youtube.com/watch` or `youtu.be/`, optionally after `http://` or `https://` and then an optional `www.`. This test comes before the Twitter, divider and link tests. The player gets the text. |
| `Streams.WwwWithoutSchemeIsNotVideo` | src/components/Streams.js:176-209 | `www.youtube.com/watch…` with no scheme is not a video. It is a tweet if it contains the Twitter pattern, and a link otherwise. |
| `Streams.TweetLinkAtIffPattern` | src/components/Streams.js:191 | The Twitter pattern, with `\w+` taken as the whole run of word characters, matches exactly when the regular expression matches with some number of word characters. The `.` accepts one UTF-16 code unit other than a line terminator. |
| `Streams.TweetIff` | src/components/Streams.js:191-193 | The rendering is a tweet exactly when the text contains the Twitter pattern and is neither a `data:` text nor a video link. The tweet id handed on is the part of the text after its last `/`. |
| `Streams.AfterLastSlash` | src/components/Streams.js:192 | `split("/").pop()`: the result has no `/`. It is a suffix of the text, and it is preceded by a `/` unless it is the whole text. |
| `Streams.TweetIdAfterLastSlash` | src/components/Streams.js:192 | For any text that contains the Twitter pattern, the part after its last `/` (the tweet id, by `TweetIff`) holds no `/` and is never the whole text: the text is what precedes it, a `/`, and the id. |
| `Streams.DividerIff` | src/components/Streams.js:194-196 | A divider is rendered exactly for one or more copies of a single rule character. No earlier test matches such a text. |
| `Streams.DividerExamples` | src/components/Streams.js:194 | `---` and `~` are dividers. `.-` and the empty text are markdown. |
| `Streams.LinkIff` | src/components/Streams.js:197-209 | A link is rendered exactly for texts that start with `http://`, `https://` or `www` and are neither video links nor contain the Twitter pattern. The link target is the text. |
| `Streams.MarkdownIff` | src/components/Streams.js:211-219 | Markdown is rendered exactly when no pattern matches. It is bold exactly when the message is highlighted. Flipping `highlighted` changes the rendering only in the markdown case. |
| `Streams.DisplayName` | src/components/Streams.js:22-25 | The displayed name is never empty. It is the stream's own name when that is non-empty. Otherwise it is the id with the first `~pub.` removed and then the first `~pub` removed, as `RemoveFirst` defines removal; when that leaves nothing it is `Stream`. A shown id is never longer than the id. |
| `Streams.PublicStreamShowsRest` | src/components/Streams.js:22-25 | An unnamed stream with id `~pub.rest` is shown as `rest`, when `rest` is non-empty and does not contain `~pub`. |
| `Streams.RepeatedKeyRemovedOnce` | src/components/Streams.js:24 | Each `replace` removes only the first occurrence: the unnamed stream `~p.a~p.b` of key `p` is shown as `a.b`. |
| `Streams.KeyAndDotIsDefault` | src/components/Streams.js:22-25 | An unnamed stream whose id is just `~pub.` is shown as `Stream`. |
| `Streams.BareKeyStreamIsDefault` | src/components/Streams.js:22-25 | An unnamed stream whose id is just `~pub` is shown as `Stream`. |
| `Streams.UnkeyedStreamShowsId` | src/components/Streams.js:16-25 | An unnamed stream with no public key is shown as its id, when the id is non-empty and does not contain `~undefined`. |
| `Streams.EditableRule` | src/components/Streams.js:16-32 | Editing is denied exactly when the stream has a public key and no private key is present. Anyone who may drop files may also edit. |
| `Streams.FirstTooLarge` | src/components/Streams.js:34-38 | Gives the index of the first payload over 1,000,000 characters, or the count of payloads when none is over. Every payload before it is within the limit. |
| `Streams.DropFiles` | src/components/Streams.js:33-43 | The payloads handed on are, in order and unchanged, those before the first oversized one. The error is raised exactly when some payload is over the limit, and it carries that payload's length. No oversized payload is ever handed on. |
| `GunStreams.DefaultMessageIdExtendsSetId` | src/components/GunStreams.js:54 | In the default naming, a message id is the message-set id (line 17), then `.`, then the key. It starts with the stream id. |
| `GunStreams.MessageIdInjective` | src/components/GunStreams.js:54 | For a fixed stream and naming, distinct keys give distinct message ids, in both namings. |
| `GunStreams.RecordIdsDistinct` | src/components/GunStreams.js:17-54 | The stream id differs from the message-set id and from every message id. A message id equals the message-set id only under the legacy naming with the key `messages`. |
| `GunStreams.CreateMessage` | src/components/GunStreams.js:52-60 | Creating a message gives exactly four writes, in order: the message's `text`, its `created` time, the set entry under the key, and the stream's `lastMessage`. Both references point to the record that receives the text. |
| `GunStreams.ApplyPut` | src/components/GunStreams.js:55 | After one write, the written field reads back the written value. Every other field keeps its value. |
| `GunStreams.ApplyPuts` | src/components/GunStreams.js:55-60 | After a batch of writes, each field holds the value of the last write to it. A field no write names keeps its value. |
| `GunStreams.CreateMessageEffect` | src/components/GunStreams.js:55-60 | Creating a message sets its text and time, files it in the message set under its key, and points `lastMessage` at it. No other field of any record changes. |
| `GunStreams.TwoCreatesKeepBoth` | src/components/GunStreams.js:52-60 | Two creations in a row with distinct keys, neither of them `messages` under the legacy naming, keep both texts and both set entries. `lastMessage` then points to the second message. |
| `GunStreams.SetStreamNameEffect` | src/components/GunStreams.js:51 | Renaming writes the stream's `name` and nothing else. |
| `GunStreams.UpdateMessageEffect` | src/components/GunStreams.js:62 | Updating a message writes the one field named and nothing else. |
| `GunStreams.ToggleHighlightTwice` | src/components/Streams.js:154 | The highlight link writes the negation of the stored flag's truthiness, so an absent flag becomes `true`. Toggling twice, each time from what the graph then holds, restores a stored boolean and in general leaves the truthiness of the original. No other field changes. |
| `GunStreams.DroppedImageRendersAsImage` | src/components/Streams.js:39-41 | When a dropped file's data URL is handed on as the text, the message's `text` field holds that URL. The message is rendered as that image when it is a `data:image/` URL, and as an unknown attachment otherwise. Boldness comes from the stored `highlighted` field. This is the corrected behaviour. |
| `Streams.ObjectStringIsMarkdown` | src/components/Streams.js:165-219 | The string `[object Object]` matches none of the patterns and is rendered as markdown, bold exactly when highlighted. |
| `GunStreams.DroppedFileAsWrittenLosesPayload` | src/components/Streams.js:39-41 | As written, the `text` field holds the object `{ text: payload }` and not the payload. Every pattern test sees its string form `[object Object]`, so the message falls to the markdown branch, whose renderer is handed the object. It is bold exactly when the stored `highlighted` field is truthy. |

## Findings

| source | as written | input that shows it | evidently intended | confidence | as-written member | corrected member |
|---|---|---|---|---|---|---|
| src/components/Streams.js:39-41 | The drop handler calls `onCreateMessage({ text: message })`. The `onCreateMessage` given by src/components/GunStreams.js:52 takes the text itself, as the new-message form passes it (src/components/Streams.js:229). So the message's `text` field receives an object. | Any dropped file within the limit, e.g. a payload `data:image/png;base64,AAAA`. The stored text is `{ text: "data:image/png;base64,AAAA" }`. Every pattern test sees its string form `[object Object]`, so the message falls to the markdown branch, and `md.render` is handed the object. | The data URL itself is stored as the message's text, and the message is rendered as an image or attachment. | medium; not executed | `GunStreams.DroppedFileAsWrittenLosesPayload` (with `Streams.DropArgumentAsWritten`) | `GunStreams.DroppedImageRendersAsImage` (with `Streams.DropArgument`) |

## Left out

- Gun itself is not modelled: peers, subscriptions (`gun.get(...).on/map`), SEA encryption, storage and replication (src/components/GunStreams.js:5-34). `ApplyPuts` is a single writer's sequential view of a batch. It says nothing about concurrent writers or conflict resolution.
- `nicks-gun-utils` is not part of this model (`getPub`, `getSet`, `getUUID`, `getId`, `getMd`, `qs`, `useGun`). Their results are inputs:
  - the public key is `pub: Option<string>`;
  - the generated key is `key: string`;
  - how `getSet` orders and reads the message set is not modelled.
- An absent public key (`undefined`) is modelled as the text `undefined` inside `~${pub}`, as a template literal prints it.
- `new Date()` is the parameter `created`.
- The `FileReader` conversion to a data URL is not modelled. The drop handler takes the payloads as strings, and `message.length` is their length in characters; a data URL is ASCII, so this equals the UTF-16 length.
- Asynchrony is not modelled. The handler awaits each file in turn, and the thrown error ends it; the model keeps that order and that stop.
- Rendering libraries are not modelled: markdown rendering, `ReactPlayer`, `Tweet`, `dangerouslySetInnerHTML`. `Content` records what each one is handed for a string text. For a non-string text, which only the as-written drop handler stores, `Markdown.source` is the string form the pattern tests saw; `md.render` is handed the object itself, and what the renderer makes of it is not modelled.
- React state and effects are not modelled: the editing form, `useState`, `useEffect`, refs, `document.title`, `scrollIntoView`, the clipboard and `alert`.
- The header's own fallback, `(stream && stream.name) || "unnamed"` (src/components/Streams.js:80), is not modelled. It is display only.
- Texts are sequences of Unicode scalar values. Lone surrogates, which a JavaScript string may hold, cannot be represented. The Twitter pattern's `.` is restricted to characters below U+10000, the ones that are a single UTF-16 code unit.
- src/app.js is not modelled: reading URL parameters and redirecting when `id` is missing are browser I/O. `legacy` is a boolean input here. The page passes the raw query value, so any non-empty `legacy` value, even `false`, selects the legacy naming.
