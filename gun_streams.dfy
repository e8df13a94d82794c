/** The stream-binding view (src/components/GunStreams.js): how the records
    of a stream are named in the graph, and the writes each user action hands
    to `put`. The writes are returned as a list instead of being performed;
    `ApplyPuts` gives them their meaning on a local copy of the graph. */
module GunStreams {
  import opened Js
  import Streams

  /** One write handed to `put`: set `field` of the record `record` to `value`. */
  datatype Put = Put(record: string, field: string, value: Value)

  // ---------------------------------------------------------------------
  // Record ids
  // ---------------------------------------------------------------------

  /** The id of the set that holds a stream's messages. */
  function MessagesId(id: string, legacy: bool): string {
    if legacy then "messages" + id + "." else id + ".messages"
  }

  /** The id of a new message, built from the stream id and a generated key. */
  function MessageId(id: string, legacy: bool, key: string): string {
    if legacy then key + id + "." else id + ".messages." + key
  }

  /** In the default naming a message's id is the id of the message set, a
      dot, and the message's key. */
  lemma DefaultMessageIdExtendsSetId(id: string, key: string)
    ensures MessageId(id, false, key) == MessagesId(id, false) + "." + key
    ensures StartsWith(MessageId(id, false, key), id)
  {
  }

  /** For a fixed stream and naming, distinct keys give distinct message ids. */
  lemma {:induction false} MessageIdInjective(id: string, legacy: bool, k1: string, k2: string)
    requires MessageId(id, legacy, k1) == MessageId(id, legacy, k2)
    ensures k1 == k2
  {
    var m1, m2 := MessageId(id, legacy, k1), MessageId(id, legacy, k2);
    if legacy {
      assert |k1| == |k2|;
      assert k1 == m1[..|k1|] == m2[..|k2|] == k2;
    } else {
      var n := |id + ".messages."|;
      assert k1 == m1[n..] == m2[n..] == k2;
    }
  }

  /** The stream record, the message set and a message are three records,
      except that under the legacy naming the key `messages` names the
      message set itself. */
  lemma RecordIdsDistinct(id: string, legacy: bool, key: string)
    ensures id != MessagesId(id, legacy)
    ensures id != MessageId(id, legacy, key)
    ensures MessageId(id, legacy, key) == MessagesId(id, legacy) <==> legacy && key == "messages"
  {
    var m, ms := MessageId(id, legacy, key), MessagesId(id, legacy);
    assert |id| < |ms| && |id| < |m|;
    if legacy && m == ms {
      assert |key| == 8;
      assert key == m[..8] == ms[..8] == "messages";
    }
    if !legacy {
      assert |ms| < |m|;
    }
  }

  // ---------------------------------------------------------------------
  // Write batches
  // ---------------------------------------------------------------------

  /** `{ "#": soul }`: a reference to the record `soul`. */
  function Ref(soul: string): Value {
    Obj("#", Str(soul))
  }

  /** `onSetStreamName`: one write, the stream record's `name`. */
  function SetStreamName(id: string, name: string): seq<Put> {
    [Put(id, "name", Str(name))]
  }

  /** `onCreateMessage`: the message's text and creation time, its entry in
      the message set under its key, and the stream's last-message reference,
      in that order. `key` is the generated UUID and `created` the clock. */
  function CreateMessage(id: string, legacy: bool, key: string, created: int, text: Value): (r: seq<Put>)
    ensures |r| == 4
    ensures r[0].record == r[1].record == MessageId(id, legacy, key)
    ensures r[0].field == "text" && r[0].value == text
    ensures r[1].field == "created" && r[1].value == Num(created)
    ensures r[2].record == MessagesId(id, legacy) && r[2].field == key
    ensures r[3].record == id && r[3].field == "lastMessage"
    ensures r[2].value == r[3].value == Ref(r[0].record)
  {
    var messageId := MessageId(id, legacy, key);
    [ Put(messageId, "text", text),
      Put(messageId, "created", Num(created)),
      Put(MessagesId(id, legacy), key, Ref(messageId)),
      Put(id, "lastMessage", Ref(messageId)) ]
  }

  /** `onUpdateMessage`: one write, `field` of the message `messageId`. */
  function UpdateMessage(messageId: string, field: string, value: Value): seq<Put> {
    [Put(messageId, field, value)]
  }

  /** The highlight link of a message (src/components/Streams.js:154): writes
      `!message.highlighted`, the negation of the flag the graph holds. */
  function ToggleHighlight(g: Graph, messageId: string): seq<Put> {
    UpdateMessage(messageId, "highlighted", Bool(!HighlightOf(g, messageId)))
  }

  // ---------------------------------------------------------------------
  // What the writes do to a local copy of the graph
  // ---------------------------------------------------------------------

  /** Records by id, each a map from field to value. */
  type Graph = map<string, map<string, Value>>

  /** The value of `field` in the record `record`, if any. */
  function Get(g: Graph, record: string, field: string): Option<Value> {
    if record in g && field in g[record] then Some(g[record][field]) else None
  }

  function ApplyPut(g: Graph, p: Put): (g': Graph)
    ensures forall r, f :: Get(g', r, f) == if r == p.record && f == p.field then Some(p.value) else Get(g, r, f)
  {
    var node := if p.record in g then g[p.record] else map[];
    g[p.record := node[p.field := p.value]]
  }

  /** The value the last write to `field` of `record` in `ps` sets, if any. */
  function LastWrite(ps: seq<Put>, record: string, field: string): Option<Value> {
    if ps == [] then None
    else
      var later := LastWrite(ps[1..], record, field);
      if later.Some? then later
      else if ps[0].record == record && ps[0].field == field then Some(ps[0].value)
      else None
  }

  /** The writes of a batch, one after another: each field ends with the
      value of the last write to it, and a field no write names keeps its
      value. */
  function ApplyPuts(g: Graph, ps: seq<Put>): (g': Graph)
    ensures forall r, f :: Get(g', r, f) == if LastWrite(ps, r, f).Some? then LastWrite(ps, r, f) else Get(g, r, f)
    decreases |ps|
  {
    if ps == [] then g else ApplyPuts(ApplyPut(g, ps[0]), ps[1..])
  }

  /** Creating a message sets its text and creation time, files it in the
      message set under its key and points the stream's last message at it;
      no other field of any record changes. */
  lemma {:induction false} CreateMessageEffect(g: Graph, id: string, legacy: bool, key: string, created: int, text: Value)
    ensures var g' := ApplyPuts(g, CreateMessage(id, legacy, key, created, text));
            var mid := MessageId(id, legacy, key);
            && Get(g', mid, "text") == Some(text)
            && Get(g', mid, "created") == Some(Num(created))
            && Get(g', MessagesId(id, legacy), key) == Some(Ref(mid))
            && Get(g', id, "lastMessage") == Some(Ref(mid))
    ensures var g' := ApplyPuts(g, CreateMessage(id, legacy, key, created, text));
            var mid := MessageId(id, legacy, key);
            forall r, f ::
              (r, f) !in {(mid, "text"), (mid, "created"), (MessagesId(id, legacy), key), (id, "lastMessage")}
              ==> Get(g', r, f) == Get(g, r, f)
  {
    var mid, msid := MessageId(id, legacy, key), MessagesId(id, legacy);
    var ps := CreateMessage(id, legacy, key, created, text);
    RecordIdsDistinct(id, legacy, key);
    assert mid == msid ==> key == "messages";
    var a, b, c, d := ps[0], ps[1], ps[2], ps[3];
    assert ps[1..] == [b, c, d] && [b, c, d][1..] == [c, d] && [c, d][1..] == [d] && [d][1..] == [];
    forall r, f
      ensures LastWrite(ps, r, f) ==
        if (r, f) == (id, "lastMessage") then Some(Ref(mid))
        else if (r, f) == (msid, key) then Some(Ref(mid))
        else if (r, f) == (mid, "created") then Some(Num(created))
        else if (r, f) == (mid, "text") then Some(text)
        else None
    {
      assert LastWrite([d], r, f) == if (r, f) == (id, "lastMessage") then Some(Ref(mid)) else None;
      assert LastWrite([c, d], r, f) ==
        if (r, f) == (id, "lastMessage") then Some(Ref(mid))
        else if (r, f) == (msid, key) then Some(Ref(mid))
        else None;
      assert LastWrite([b, c, d], r, f) ==
        if (r, f) == (id, "lastMessage") then Some(Ref(mid))
        else if (r, f) == (msid, key) then Some(Ref(mid))
        else if (r, f) == (mid, "created") then Some(Num(created))
        else None;
    }
  }

  /** Renaming writes the stream's `name` and nothing else. */
  lemma SetStreamNameEffect(g: Graph, id: string, name: string)
    ensures var g' := ApplyPuts(g, SetStreamName(id, name));
            && Get(g', id, "name") == Some(Str(name))
            && forall r, f :: (r, f) != (id, "name") ==> Get(g', r, f) == Get(g, r, f)
  {
  }

  /** Updating a message writes the one field named and nothing else. */
  lemma UpdateMessageEffect(g: Graph, messageId: string, field: string, value: Value)
    ensures var g' := ApplyPuts(g, UpdateMessage(messageId, field, value));
            && Get(g', messageId, field) == Some(value)
            && forall r, f :: (r, f) != (messageId, field) ==> Get(g', r, f) == Get(g, r, f)
  {
  }

  /** Toggling the highlight of a message twice, each time from the value
      the graph then holds, leaves the flag as true or false according to
      the truthiness of what was there before: a stored boolean comes back
      unchanged, and an absent flag is first set to true. No other field
      changes. */
  lemma ToggleHighlightTwice(g: Graph, messageId: string)
    ensures var g1 := ApplyPuts(g, ToggleHighlight(g, messageId));
            var was := Get(g, messageId, "highlighted");
            && Get(g1, messageId, "highlighted") == Some(Bool(!ValueTruthy(was)))
            && (was.None? ==> Get(g1, messageId, "highlighted") == Some(Bool(true)))
    ensures var g1 := ApplyPuts(g, ToggleHighlight(g, messageId));
            var g2 := ApplyPuts(g1, ToggleHighlight(g1, messageId));
            var was := Get(g, messageId, "highlighted");
            && Get(g2, messageId, "highlighted") == Some(Bool(ValueTruthy(was)))
            && (forall h :: was == Some(Bool(h)) ==> Get(g2, messageId, "highlighted") == was)
            && (forall r, f :: (r, f) != (messageId, "highlighted") ==> Get(g2, r, f) == Get(g, r, f))
  {
  }

  /** A key the legacy naming can use without the message id colliding with
      the message set's id. */
  predicate UsableKey(legacy: bool, key: string) {
    !legacy || key != "messages"
  }

  /** Two messages created one after the other in a stream, with distinct
      keys, both keep their text and their set entry, and the stream's last
      message is the second. */
  lemma {:induction false} TwoCreatesKeepBoth(g: Graph, id: string, legacy: bool, k1: string, k2: string,
                                               t1: int, t2: int, text1: Value, text2: Value)
    requires k1 != k2 && UsableKey(legacy, k1) && UsableKey(legacy, k2)
    ensures var g2 := ApplyPuts(ApplyPuts(g, CreateMessage(id, legacy, k1, t1, text1)),
                                CreateMessage(id, legacy, k2, t2, text2));
            var m1, m2 := MessageId(id, legacy, k1), MessageId(id, legacy, k2);
            && Get(g2, m1, "text") == Some(text1)
            && Get(g2, m2, "text") == Some(text2)
            && Get(g2, MessagesId(id, legacy), k1) == Some(Ref(m1))
            && Get(g2, MessagesId(id, legacy), k2) == Some(Ref(m2))
            && Get(g2, id, "lastMessage") == Some(Ref(m2))
  {
    var m1, m2, msid := MessageId(id, legacy, k1), MessageId(id, legacy, k2), MessagesId(id, legacy);
    var g1 := ApplyPuts(g, CreateMessage(id, legacy, k1, t1, text1));
    CreateMessageEffect(g, id, legacy, k1, t1, text1);
    CreateMessageEffect(g1, id, legacy, k2, t2, text2);
    RecordIdsDistinct(id, legacy, k1);
    RecordIdsDistinct(id, legacy, k2);
    if m1 == m2 {
      MessageIdInjective(id, legacy, k1, k2);
    }
  }

  // ---------------------------------------------------------------------
  // From a dropped file to what is shown
  // ---------------------------------------------------------------------

  /** The text `MessageContent` classifies for a message: the string form of
      its `text` field, `undefined` when it has none. */
  function TextOf(g: Graph, messageId: string): string {
    match Get(g, messageId, "text")
    case Some(v) => ToString(v)
    case None => "undefined"
  }

  /** Whether `MessageContent` shows a message in bold: the truthiness of
      its `highlighted` field. */
  predicate HighlightOf(g: Graph, messageId: string) {
    ValueTruthy(Get(g, messageId, "highlighted"))
  }

  /** The message `MessageContent` receives for the record `messageId`. */
  function MessageOf(g: Graph, messageId: string): Streams.Message {
    Streams.Message(TextOf(g, messageId), HighlightOf(g, messageId))
  }

  /** A dropped file, handed on as its data URL, is stored as the message's
      text and is shown as that image, or as an unknown attachment when it
      is not an image. */
  lemma DroppedImageRendersAsImage(g: Graph, id: string, legacy: bool, key: string, created: int,
                                   payload: string)
    requires Streams.IsDataUrl(payload)
    ensures var g' := ApplyPuts(g, CreateMessage(id, legacy, key, created, Streams.DropArgument(payload)));
            var mid := MessageId(id, legacy, key);
            && Get(g', mid, "text") == Some(Str(payload))
            && (Streams.IsImageData(payload) ==> Streams.Classify(MessageOf(g', mid)) == Streams.Image(payload))
            && (!Streams.IsImageData(payload) ==> Streams.Classify(MessageOf(g', mid)) == Streams.Attachment(payload))
  {
    CreateMessageEffect(g, id, legacy, key, created, Streams.DropArgument(payload));
  }

  /** As written, the drop handler hands on the object `{ text: payload }`:
      the message's text field holds that object. Every pattern test sees
      its string form, `[object Object]`, so none matches and the markdown
      branch is taken instead of the image or attachment branch. (That branch
      then hands the object itself to the markdown renderer; `Markdown`
      records the string the tests saw.) */
  lemma DroppedFileAsWrittenLosesPayload(g: Graph, id: string, legacy: bool, key: string, created: int,
                                         payload: string)
    ensures var g' := ApplyPuts(g, CreateMessage(id, legacy, key, created, Streams.DropArgumentAsWritten(payload)));
            var mid := MessageId(id, legacy, key);
            && Get(g', mid, "text") == Some(Obj("text", Str(payload)))
            && Get(g', mid, "text") != Some(Str(payload))
            && Streams.Classify(MessageOf(g', mid)) == Streams.Markdown("[object Object]", HighlightOf(g', mid))
  {
    CreateMessageEffect(g, id, legacy, key, created, Streams.DropArgumentAsWritten(payload));
    var g' := ApplyPuts(g, CreateMessage(id, legacy, key, created, Streams.DropArgumentAsWritten(payload)));
    var mid := MessageId(id, legacy, key);
    assert TextOf(g', mid) == "[object Object]";
    Streams.ObjectStringIsMarkdown(HighlightOf(g', mid));
  }
}
