/** The decisions the stream view makes (src/components/Streams.js): which
    kind of content a message's text is rendered as, the name shown for a
    stream, whether the viewer may edit it, and which dropped files are
    turned into messages. */
module Streams {
  import opened Js

  /** A message as the view receives it from the graph. */
  datatype Message = Message(text: string, highlighted: bool)

  /** The one rendering `MessageContent` chooses, with what it hands on to
      the renderer of that kind. */
  datatype Content =
    | Image(src: string)                  // an <img> showing the data URL
    | Attachment(href: string)            // an "[unknown attachment]" link
    | Video(url: string)                  // an embedded player
    | Tweet(tweetId: string)              // an embedded tweet
    | Divider                             // a horizontal rule
    | Link(href: string)                  // the text as a link
    | Markdown(source: string, bold: bool) // rendered markdown, bold when highlighted

  // ---------------------------------------------------------------------
  // The patterns, in the order MessageContent tests them
  // ---------------------------------------------------------------------

  /** `/^data:image\//` */
  predicate IsImageData(t: string) {
    StartsWith(t, "data:image/")
  }

  /** `/^data:/`, the scheme of RFC 2397 (only the prefix is checked). */
  predicate IsDataUrl(t: string) {
    StartsWith(t, "data:")
  }

  /** `/^(https?:\/\/(www\.)?)?` followed by `rest`: no scheme, or an http(s)
      scheme optionally followed by `www.`; `www.` alone is not accepted. */
  predicate StartsWithOptionalScheme(t: string, rest: string) {
    || StartsWith(t, rest)
    || StartsWith(t, "http://" + rest)
    || StartsWith(t, "https://" + rest)
    || StartsWith(t, "http://www." + rest)
    || StartsWith(t, "https://www." + rest)
  }

  /** The two YouTube patterns: a watch page or a short link. */
  predicate IsVideoLink(t: string) {
    StartsWithOptionalScheme(t, "youtube.com/watch") || StartsWithOptionalScheme(t, "youtu.be/")
  }

  /** `\w` */
  predicate IsWordChar(c: char) {
    ('a' <= c <= 'z') || ('A' <= c <= 'Z') || ('0' <= c <= '9') || c == '_'
  }

  /** `\d` */
  predicate IsDigit(c: char) {
    '0' <= c <= '9'
  }

  /** The characters the regular-expression `.` does not match. */
  predicate IsLineTerminator(c: char) {
    c == '\n' || c == '\r' || c == '\U{2028}' || c == '\U{2029}'
  }

  /** The length of the longest prefix of `s` made of word characters. */
  function WordRun(s: string): (n: nat)
    ensures n <= |s|
    ensures forall k :: 0 <= k < n ==> IsWordChar(s[k])
    ensures n < |s| ==> !IsWordChar(s[n])
  {
    if s == [] || !IsWordChar(s[0]) then 0 else 1 + WordRun(s[1..])
  }

  /** The regular-expression `.` without the `u` flag matches one UTF-16
      code unit: a character outside the Basic Multilingual Plane takes two
      and cannot stand for it. */
  predicate IsOneCodeUnit(c: char) {
    c < '\U{10000}'
  }

  /** `twitter.com\/` at the start of `s`. The `.` is not escaped, so any
      single code unit other than a line terminator may stand between
      `twitter` and `com/`. */
  predicate TweetHostAt(s: string) {
    && StartsWith(s, "twitter") && |s| > 7
    && !IsLineTerminator(s[7]) && IsOneCodeUnit(s[7])
    && StartsWith(s[8..], "com/")
  }

  /** `\w+\/status\/\d+` at the start of `p`. Because `/` is not a word
      character, `\w+` can only match the whole run of word characters. */
  predicate StatusPathAt(p: string) {
    var w := WordRun(p);
    w >= 1 && StartsWith(p[w..], "/status/") && |p| > w + 8 && IsDigit(p[w + 8])
  }

  /** `twitter.com\/\w+\/status\/\d+` matches at the start of `s`. */
  predicate TweetLinkAt(s: string) {
    TweetHostAt(s) && StatusPathAt(s[12..])
  }

  /** The pattern matched the way the regular expression reads, with `\w+`
      standing for exactly `n` characters. */
  ghost predicate TweetPatternWith(s: string, n: nat) {
    && TweetHostAt(s)
    && 1 <= n && 12 + n <= |s|
    && (forall k :: 12 <= k < 12 + n ==> IsWordChar(s[k]))
    && StartsWith(s[12 + n..], "/status/") && |s| > 20 + n && IsDigit(s[20 + n])
  }

  /** Matching `\w+` as the whole word run is the same as matching the
      pattern with some number of word characters. */
  lemma {:induction false} TweetLinkAtIffPattern(s: string)
    ensures TweetLinkAt(s) <==> exists n: nat :: TweetPatternWith(s, n)
  {
    if TweetLinkAt(s) {
      var w := WordRun(s[12..]);
      forall k | 12 <= k < 12 + w
        ensures IsWordChar(s[k])
      {
        assert s[k] == s[12..][k - 12];
      }
      assert s[12..][w..] == s[12 + w..];
      assert TweetPatternWith(s, w);
    }
    if n: nat :| TweetPatternWith(s, n) {
      var w := WordRun(s[12..]);
      assert s[12 + n] == s[12 + n..][..8][0] == '/';
      assert s[12..][n] == s[12 + n];
      assert w < |s| - 12 ==> s[12..][w] == s[12 + w];
      assert n == w;
      assert s[12..][w..] == s[12 + w..];
    }
  }

  /** The Twitter pattern is not anchored: it may match anywhere. */
  predicate ContainsTweetLink(t: string) {
    exists i :: 0 <= i < |t| && TweetLinkAt(t[i..])
  }

  /** `message.text.split("/").pop()`: what follows the last `/`, or the
      whole text when there is none. */
  function AfterLastSlash(t: string): (r: string)
    ensures '/' !in r
    ensures |r| <= |t| && r == t[|t| - |r|..]
    ensures |r| < |t| ==> t[|t| - |r| - 1] == '/'
  {
    if t == [] then []
    else if t[|t| - 1] == '/' then []
    else AfterLastSlash(t[..|t| - 1]) + [t[|t| - 1]]
  }

  /** A text holding a `/` is what precedes its last `/`, the `/`, and the
      part `AfterLastSlash` gives. */
  lemma SplitAtLastSlash(t: string)
    ensures '/' in t ==>
              var id := AfterLastSlash(t);
              |id| < |t| && t == t[..|t| - |id| - 1] + "/" + id
  {
  }

  predicate IsRuleChar(c: char) {
    c == '.' || c == '-' || c == '*' || c == '~'
  }

  /** `/^(\.+|-+|\*+|~+)$/`: one or more copies of a single rule character
      and nothing else (`$` without the multiline flag is the end of the
      text). */
  predicate IsDivider(t: string) {
    |t| > 0 && IsRuleChar(t[0]) && forall i :: 0 <= i < |t| ==> t[i] == t[0]
  }

  /** `/^(https?:\/\/|www)/` */
  predicate IsBareLink(t: string) {
    StartsWith(t, "http://") || StartsWith(t, "https://") || StartsWith(t, "www")
  }

  /** `MessageContent`: the first pattern that matches decides the rendering. */
  function Classify(m: Message): Content {
    var t := m.text;
    if IsImageData(t) then Image(t)
    else if IsDataUrl(t) then Attachment(t)
    else if IsVideoLink(t) then Video(t)
    else if ContainsTweetLink(t) then Tweet(AfterLastSlash(t))
    else if IsDivider(t) then Divider
    else if IsBareLink(t) then Link(t)
    else Markdown(t, m.highlighted)
  }

  // ---------------------------------------------------------------------
  // The tests in source order, as a reference for "first match wins"
  // ---------------------------------------------------------------------

  /** Test number `k` of MessageContent, in source order; the seventh, the
      markdown fallback, always matches. */
  predicate TestMatches(t: string, k: nat)
    requires k < 7
  {
    match k
    case 0 => IsImageData(t)
    case 1 => IsDataUrl(t)
    case 2 => IsVideoLink(t)
    case 3 => ContainsTweetLink(t)
    case 4 => IsDivider(t)
    case 5 => IsBareLink(t)
    case _ => true
  }

  /** The position in source order of the test that yields `c`. */
  function Rank(c: Content): (k: nat)
    ensures k < 7
  {
    match c
    case Image(_) => 0
    case Attachment(_) => 1
    case Video(_) => 2
    case Tweet(_) => 3
    case Divider => 4
    case Link(_) => 5
    case Markdown(_, _) => 6
  }

  /** Every message gets exactly one rendering: that of the first test in
      source order that matches its text. */
  lemma ClassifyIsFirstMatch(m: Message)
    ensures TestMatches(m.text, Rank(Classify(m)))
    ensures forall k: nat :: k < Rank(Classify(m)) ==> !TestMatches(m.text, k)
  {
  }

  // ---------------------------------------------------------------------
  // Disjointness of the patterns
  // ---------------------------------------------------------------------

  /** A text starting with `x` (any string) starts with its first character. */
  lemma FirstChar(t: string, x: string)
    requires |x| > 0
    ensures StartsWith(t, x) ==> |t| > 0 && t[0] == x[0]
  {
  }

  /** An image data URL is a data URL. */
  lemma ImageDataIsDataUrl(t: string)
    ensures IsImageData(t) ==> IsDataUrl(t)
  {
  }

  /** A video link starts with `y` or `h`. */
  lemma VideoLinkFirstChar(t: string)
    ensures IsVideoLink(t) ==> |t| > 0 && (t[0] == 'y' || t[0] == 'h')
  {
  }

  /** A match of the Twitter pattern starts with `tw` and has a `/` at 11. */
  lemma TweetLinkShape(s: string)
    requires TweetLinkAt(s)
    ensures |s| > 11 && s[0] == 't' && s[1] == 'w' && s[11] == '/'
  {
  }

  /** A text containing a tweet link contains the characters `t`, `w`, `/`. */
  lemma TweetLinkLetters(t: string)
    ensures ContainsTweetLink(t) ==> 't' in t && 'w' in t && '/' in t
  {
    if ContainsTweetLink(t) {
      var i :| 0 <= i < |t| && TweetLinkAt(t[i..]);
      TweetLinkShape(t[i..]);
      assert t[i] == t[i..][0] && t[i + 1] == t[i..][1] && t[i + 11] == t[i..][11];
    }
  }

  // ---------------------------------------------------------------------
  // What each rendering is chosen for
  // ---------------------------------------------------------------------

  /** Any text starting with `data:image/` is an image, whatever follows. */
  lemma ImageIff(m: Message)
    ensures Classify(m).Image? <==> IsImageData(m.text)
    ensures Classify(m).Image? ==> Classify(m).src == m.text
  {
  }

  /** A `data:` URL that is not an image is an unknown attachment; no
      `data:` URL is ever shown as a link or rendered as markdown. */
  lemma DataUrlIsAttachment(m: Message)
    ensures Classify(m).Attachment? <==> IsDataUrl(m.text) && !IsImageData(m.text)
    ensures IsDataUrl(m.text) ==> Classify(m).Image? || Classify(m).Attachment?
  {
  }

  /** The YouTube patterns come before the Twitter, divider and link
      patterns: every video link is embedded. */
  lemma {:induction false} VideoIff(m: Message)
    ensures Classify(m).Video? <==> IsVideoLink(m.text)
    ensures Classify(m).Video? ==> Classify(m).url == m.text
  {
    VideoLinkFirstChar(m.text);
    FirstChar(m.text, "data:");
  }

  /** `www.youtube.com/watch` without a scheme is not a video link; it falls
      through to the Twitter test and then to the link branch. */
  lemma {:induction false} WwwWithoutSchemeIsNotVideo(m: Message, rest: string)
    requires m.text == "www.youtube.com/watch" + rest
    ensures Classify(m) == (if ContainsTweetLink(m.text) then Tweet(AfterLastSlash(m.text)) else Link(m.text))
  {
    var t := m.text;
    FirstChar(t, "www.youtube.com/watch");
    VideoLinkFirstChar(t);
    FirstChar(t, "data:");
    assert !IsRuleChar(t[0]);
    assert StartsWith(t, "www") by {
      assert t[..3] == ("www.youtube.com/watch" + rest)[..3];
    }
    assert !IsImageData(t) && !IsDataUrl(t) && !IsVideoLink(t) && !IsDivider(t) && IsBareLink(t);
  }

  /** A tweet is rendered for a text containing the Twitter pattern that is
      neither a `data:` URL nor a video link. */
  lemma TweetIff(m: Message)
    ensures Classify(m).Tweet? <==> ContainsTweetLink(m.text) && !IsVideoLink(m.text) && !IsDataUrl(m.text)
    ensures Classify(m).Tweet? ==> Classify(m).tweetId == AfterLastSlash(m.text)
  {
    ImageDataIsDataUrl(m.text);
    if Classify(m).Tweet? {
      assert !IsDataUrl(m.text) && !IsVideoLink(m.text) && ContainsTweetLink(m.text);
    }
  }

  /** The tweet id `Classify` hands on, the part of a text containing a
      tweet link after its last `/`, never holds a `/` and is never the
      whole text. */
  lemma {:induction false} TweetIdAfterLastSlash(t: string)
    ensures ContainsTweetLink(t) ==>
              var id := AfterLastSlash(t);
              '/' !in id && |id| < |t| && t == t[..|t| - |id| - 1] + "/" + id
  {
    TweetLinkLetters(t);
    SplitAtLastSlash(t);
  }

  /** A divider is drawn exactly for one or more copies of a single rule
      character; no earlier test matches such a text. */
  lemma {:induction false} DividerIff(m: Message)
    ensures Classify(m) == Divider <==> IsDivider(m.text)
  {
    var t := m.text;
    FirstChar(t, "data:");
    VideoLinkFirstChar(t);
    TweetLinkLetters(t);
    if IsDivider(t) {
      assert 't' !in t;
    }
  }

  /** A mix of rule characters, or the empty text, is not a divider. */
  lemma DividerExamples()
    ensures Classify(Message("---", false)) == Divider
    ensures Classify(Message("~", true)) == Divider
    ensures Classify(Message(".-", false)) == Markdown(".-", false)
    ensures Classify(Message("", false)) == Markdown("", false)
  {
    assert !IsDivider(".-") by { assert ".-"[1] != ".-"[0]; }
    assert !ContainsTweetLink("---");
    assert !ContainsTweetLink("~");
    assert !ContainsTweetLink(".-");
  }

  /** A text starting with `http://`, `https://` or `www` is shown as a link
      unless it is a video link or contains a tweet link. */
  lemma {:induction false} LinkIff(m: Message)
    ensures Classify(m).Link? <==> IsBareLink(m.text) && !IsVideoLink(m.text) && !ContainsTweetLink(m.text)
    ensures Classify(m).Link? ==> Classify(m).href == m.text
  {
    var t := m.text;
    FirstChar(t, "http://");
    FirstChar(t, "https://");
    FirstChar(t, "www");
    FirstChar(t, "data:");
  }

  /** Everything no pattern matches is markdown, and the highlight flag
      only ever affects the markdown rendering. */
  lemma MarkdownIff(m: Message)
    ensures Classify(m).Markdown? <==>
              !IsDataUrl(m.text) && !IsVideoLink(m.text) && !ContainsTweetLink(m.text)
              && !IsDivider(m.text) && !IsBareLink(m.text)
    ensures Classify(m).Markdown? ==> Classify(m) == Markdown(m.text, m.highlighted)
    ensures Classify(m.(highlighted := !m.highlighted)) == Classify(m) <==> !Classify(m).Markdown?
  {
  }

  // ---------------------------------------------------------------------
  // The stream's displayed name
  // ---------------------------------------------------------------------

  const DefaultStreamName := "Stream"

  /** `${pub}` in a template literal: an absent key prints as `undefined`. */
  function PubText(pub: Option<string>): string {
    match pub
    case Some(p) => p
    case None => "undefined"
  }

  /** The name shown for a stream (and used as the page title): its own name
      when it has one; else its id with the first `~pub.` and then the first
      `~pub` removed; else `Stream`. */
  function DisplayName(name: Option<string>, id: string, pub: Option<string>): (r: string)
    ensures r != ""
    ensures Truthy(name) ==> r == name.value
    ensures !Truthy(name) && r != DefaultStreamName ==> |r| <= |id|
    ensures !Truthy(name) ==>
              var key := "~" + PubText(pub);
              var stripped := RemoveFirst(RemoveFirst(id, key + "."), key);
              r == if stripped != "" then stripped else DefaultStreamName
  {
    if Truthy(name) then name.value
    else
      var key := "~" + PubText(pub);
      var stripped := RemoveFirst(RemoveFirst(id, key + "."), key);
      if stripped != "" then stripped else DefaultStreamName
  }

  /** A stream whose id is `~pub.rest`, without a name of its own, is shown
      as `rest` (when `rest` is not empty and does not itself hold `~pub`). */
  lemma PublicStreamShowsRest(name: Option<string>, p: string, rest: string)
    requires !Truthy(name) && rest != ""
    requires IndexOf(rest, "~" + p).None?
    ensures DisplayName(name, "~" + p + "." + rest, Some(p)) == rest
  {
  }

  /** Each `replace` removes only the first occurrence of the key: in an id
      holding `~pub.` twice, the second loses only its `~pub`. */
  lemma RepeatedKeyRemovedOnce()
    ensures DisplayName(None, "~p.a~p.b", Some("p")) == "a.b"
  {
    var key := "~" + PubText(Some("p"));
    assert key == "~p" && key + "." == "~p.";
    FirstKeyRemoved();
    SecondKeyRemoved();
    var stripped := RemoveFirst(RemoveFirst("~p.a~p.b", key + "."), key);
    assert stripped == "a.b";
  }

  lemma FirstKeyRemoved()
    ensures RemoveFirst("~p.a~p.b", "~p.") == "a~p.b"
  {
    var id := "~p.a~p.b";
    assert OccursAt(id, "~p.", 0) by { assert id[..3] == "~p."; }
    RemoveFirstAt(id, "~p.", 0);
    assert id[3..] == "a~p.b";
  }

  lemma SecondKeyRemoved()
    ensures RemoveFirst("a~p.b", "~p") == "a.b"
  {
    var once := "a~p.b";
    assert !OccursAt(once, "~p", 0) by { assert once[0] == 'a'; }
    assert OccursAt(once, "~p", 1) by { assert once[1..3] == "~p"; }
    assert IndexOf(once, "~p") == IndexFrom(once, "~p", 1) == Some(1);
    RemoveFirstAt(once, "~p", 1);
    assert once[..1] + once[3..] == "a.b";
  }

  /** An id that is just `~pub.` strips to nothing and is shown as `Stream`. */
  lemma KeyAndDotIsDefault(name: Option<string>, p: string)
    requires !Truthy(name)
    ensures DisplayName(name, "~" + p + ".", Some(p)) == DefaultStreamName
  {
    var id := "~" + p + ".";
    assert OccursAt(id, id, 0);
    RemoveFirstAt(id, id, 0);
    assert IndexOf("", "~" + p) == None;
  }

  /** A stream whose id is just `~pub`, without a name, is shown as `Stream`. */
  lemma BareKeyStreamIsDefault(name: Option<string>, p: string)
    requires !Truthy(name)
    ensures DisplayName(name, "~" + p, Some(p)) == DefaultStreamName
  {
  }

  /** The id of a stream without a public key, without a name, is shown as
      it is, provided it does not hold `~undefined`. */
  lemma {:induction false} UnkeyedStreamShowsId(name: Option<string>, id: string)
    requires !Truthy(name) && id != ""
    requires IndexOf(id, "~undefined").None?
    ensures DisplayName(name, id, None) == id
  {
    var key := "~" + PubText(None);
    assert key == "~undefined";
    if IndexOf(id, key + ".").Some? {
      OccursAtExtended(id, key, ".", IndexOf(id, key + ".").value);
    }
  }

  // ---------------------------------------------------------------------
  // Editing rights
  // ---------------------------------------------------------------------

  /** `editable`: a stream with no public key in its id is open to everyone;
      one with a public key only to a holder of the private key. */
  function Editable(pub: Option<string>, priv: Option<string>): bool {
    !Truthy(pub) || Truthy(priv)
  }

  /** Files may be dropped onto the page only when a private key is given. */
  function AcceptsDrops(priv: Option<string>): bool {
    Truthy(priv)
  }

  /** Editing is denied exactly to a viewer of a keyed stream without its
      private key (a read-only share link), and whoever may drop files may
      also edit. */
  lemma EditableRule(pub: Option<string>, priv: Option<string>)
    ensures !Editable(pub, priv) <==> Truthy(pub) && !Truthy(priv)
    ensures AcceptsDrops(priv) ==> Editable(pub, priv)
    ensures pub.None? ==> Editable(pub, priv)
  {
  }

  // ---------------------------------------------------------------------
  // Dropped files
  // ---------------------------------------------------------------------

  /** The largest base64 payload, in characters, accepted as a message. */
  const MaxPayloadLength := 1000000

  datatype DropError = FileTooLarge(length: nat)

  /** The index of the first payload over the limit, or the number of
      payloads when none is. */
  function FirstTooLarge(payloads: seq<string>): (n: nat)
    ensures n <= |payloads|
    ensures forall i :: 0 <= i < n ==> |payloads[i]| <= MaxPayloadLength
    ensures n < |payloads| ==> |payloads[n]| > MaxPayloadLength
  {
    if payloads == [] then 0
    else if |payloads[0]| > MaxPayloadLength then 0
    else 1 + FirstTooLarge(payloads[1..])
  }

  /** The drop handler: each file, in order, as its base64 data URL, is
      handed to `onCreateMessage` until one is over the limit; that one
      raises an error and ends the handler, so it and every file after it
      are never sent. Returns the payloads sent, in order, and the error. */
  method DropFiles(payloads: seq<string>) returns (sent: seq<string>, err: Option<DropError>)
    ensures sent == payloads[..FirstTooLarge(payloads)]
    ensures forall p :: p in sent ==> |p| <= MaxPayloadLength
    ensures err.None? <==> forall p :: p in payloads ==> |p| <= MaxPayloadLength
    ensures err.Some? ==> err.value.length > MaxPayloadLength
    ensures err.Some? ==> err.value == FileTooLarge(|payloads[|sent|]|)
  {
    sent := [];
    var i := 0;
    while i < |payloads|
      invariant i <= |payloads|
      invariant sent == payloads[..i]
      invariant forall k :: 0 <= k < i ==> |payloads[k]| <= MaxPayloadLength
    {
      if |payloads[i]| > MaxPayloadLength {
        err := Some(FileTooLarge(|payloads[i]|));
        return;
      }
      sent := sent + [payloads[i]];
      i := i + 1;
    }
    err := None;
    assert payloads[..i] == payloads;
  }

  /** `[object Object]`, the string form of a plain object, matches no
      pattern and is rendered as markdown. */
  lemma ObjectStringIsMarkdown(highlighted: bool)
    ensures Classify(Message("[object Object]", highlighted)) == Markdown("[object Object]", highlighted)
  {
    var t := "[object Object]";
    FirstChar(t, "data:");
    VideoLinkFirstChar(t);
    TweetLinkLetters(t);
    FirstChar(t, "http://");
    FirstChar(t, "https://");
    FirstChar(t, "www");
    assert t[0] == '[' && 'w' !in t;
  }

  /** The argument the drop handler hands to `onCreateMessage` for one file,
      as written: the object `{ text: payload }`. */
  function DropArgumentAsWritten(payload: string): Value {
    Obj("text", Str(payload))
  }

  /** The argument the drop handler evidently means to hand on, the one the
      new-message form hands on for typed text: the string itself. */
  function DropArgument(payload: string): Value {
    Str(payload)
  }
}
