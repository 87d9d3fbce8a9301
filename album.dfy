/** The pure parts of album.go: how a message is keyed into an album, the
    list helpers on `Contexts`, `Album.WithCaption`, the request parameters
    of the bulk forward/copy/delete calls, and how `HandleAlbum` splits its
    options and picks an aggregation policy.

    A handler context is seen through the message it carries; the calls a
    context forwards to (sending, editing, deleting) are functions passed in. */
module TgAlbum {
  import opened Wrappers
  import Text

  /** The fields of a Telegram message the album code reads. `text` is what the
      context's `Text()` returns and `media` whether `InputMedia()` is non-nil. */
  datatype Message = Message(id: int, chatId: int, albumId: string, text: string, media: bool)

  datatype Context = Context(message: Message)

  /** `ErrEmptyContexts`, telebot's `ErrEmptyMessage` and `ErrBadRecipient`,
      and an error returned by a call the model does not see into. */
  datatype Error = EmptyContexts | EmptyMessage | BadRecipient | Failed(text: string)

  /** The text of `ErrEmptyContexts`. */
  const EmptyContextsText: string := "bad argument: len(contexts) == 0"

  // ---------------------------------------------------------------------------
  // Album keys
  // ---------------------------------------------------------------------------

  /** `singleMessage`: the message belongs to no media group. */
  predicate SingleMessage(m: Message) {
    m.albumId == ""
  }

  /** `mediaGroupToId`: the media group id, or `"<chat id>_<message id>"` in
      decimal for a message outside any group. */
  function MediaGroupToId(m: Message): string {
    if !SingleMessage(m) then m.albumId
    else Text.FormatInt(m.chatId) + "_" + Text.FormatInt(m.id)
  }

  /** No message is keyed by "", the synced manager's "no album" value. */
  lemma MediaGroupToIdNonEmpty(m: Message)
    ensures MediaGroupToId(m) != ""
  {
    if SingleMessage(m) {
      assert |Text.FormatInt(m.chatId) + "_" + Text.FormatInt(m.id)| >= 2;
    }
  }

  /** Two single messages share a key exactly when they are the same message
      of the same chat: the decimal rendering with its `_` separator can be
      read back. */
  lemma SingleMessageKeys(m1: Message, m2: Message)
    requires SingleMessage(m1) && SingleMessage(m2)
    ensures MediaGroupToId(m1) == MediaGroupToId(m2) <==> m1.chatId == m2.chatId && m1.id == m2.id
  {
    if MediaGroupToId(m1) == MediaGroupToId(m2) {
      var x1, x2 := "_" + Text.FormatInt(m1.id), "_" + Text.FormatInt(m2.id);
      assert Text.FormatInt(m1.chatId) + x1 == Text.FormatInt(m2.chatId) + x2 by {
        assert Text.FormatInt(m1.chatId) + x1 == MediaGroupToId(m1);
        assert Text.FormatInt(m2.chatId) + x2 == MediaGroupToId(m2);
      }
      Text.FormatIntPrefix(m1.chatId, x1, m2.chatId, x2);
      assert Text.FormatInt(m1.id) == x1[1..] == x2[1..] == Text.FormatInt(m2.id);
      assert Text.FormatInt(m1.id) + [] == Text.FormatInt(m2.id) + [];
      Text.FormatIntPrefix(m1.id, [], m2.id, []);
    }
  }

  // ---------------------------------------------------------------------------
  // Contexts
  // ---------------------------------------------------------------------------

  /** `Contexts.Text`: the first non-empty text, or "" when there is none. */
  function ContextsText(cs: seq<Context>): (r: string)
    ensures r != "" <==> exists i :: 0 <= i < |cs| && cs[i].message.text != ""
    ensures r != "" ==> exists i :: (0 <= i < |cs| && r == cs[i].message.text
                                     && forall j :: 0 <= j < i ==> cs[j].message.text == "")
  {
    if cs == [] then ""
    else if cs[0].message.text != "" then cs[0].message.text
    else
      var r := ContextsText(cs[1..]);
      assert forall i :: 1 <= i < |cs| ==> cs[i] == cs[1..][i - 1];
      r
  }

  /** `Contexts.IsAlbum`: every message carries an input media (vacuously so
      for no contexts). */
  function IsAlbum(cs: seq<Context>): (b: bool)
    ensures b <==> forall i :: 0 <= i < |cs| ==> cs[i].message.media
  {
    if cs == [] then true
    else
      var rest := IsAlbum(cs[1..]);
      assert forall i :: 1 <= i < |cs| ==> cs[i] == cs[1..][i - 1];
      cs[0].message.media && rest
  }

  /** The guard of the methods that forward to the first context (`Send`,
      `SendAlbum`, `Reply`, `Forward`, `Edit`, `EditOrSend`, `EditOrReply`):
      `ErrEmptyContexts` for no contexts, otherwise whatever the first one
      returns. */
  function ToFirst(cs: seq<Context>, call: Context -> Option<Error>): (r: Option<Error>)
    ensures cs == [] ==> r == Some(EmptyContexts)
    ensures cs != [] ==> r == call(cs[0])
  {
    if cs == [] then Some(EmptyContexts) else call(cs[0])
  }

  /** How many contexts in a row `what` accepts before the first one it fails on. */
  function FirstFailure(cs: seq<Context>, what: Context -> Option<Error>): (k: nat)
    ensures k <= |cs|
    ensures forall j :: 0 <= j < k ==> what(cs[j]) == None
    ensures k < |cs| ==> what(cs[k]).Some?
  {
    if cs == [] || what(cs[0]).Some? then 0
    else
      var k := FirstFailure(cs[1..], what);
      assert forall j :: 1 <= j < |cs| ==> cs[j] == cs[1..][j - 1];
      1 + k
  }

  /** `Contexts.All`: `ErrEmptyContexts` for no contexts; otherwise apply
      `what` in order and stop at the first error, returning it. `calls` is how
      many contexts `what` was applied to, the first `calls` of them. */
  method All(cs: seq<Context>, what: Context -> Option<Error>) returns (err: Option<Error>, calls: nat)
    ensures cs == [] ==> err == Some(EmptyContexts) && calls == 0
    ensures cs != [] && FirstFailure(cs, what) < |cs| ==>
      calls == FirstFailure(cs, what) + 1 && err == what(cs[FirstFailure(cs, what)])
    ensures cs != [] && FirstFailure(cs, what) == |cs| ==> calls == |cs| && err == None
  {
    if |cs| == 0 {
      return Some(EmptyContexts), 0;
    }
    calls := 0;
    while calls < |cs|
      invariant calls <= |cs|
      invariant forall j :: 0 <= j < calls ==> what(cs[j]) == None
    {
      var e := what(cs[calls]);
      calls := calls + 1;
      if e.Some? {
        FirstFailureAt(cs, what, calls - 1);
        return e, calls;
      }
    }
    FirstFailureAt(cs, what, |cs|);
    return None, calls;
  }

  /** `FirstFailure` is the one index the loop of `All` can stop at. */
  lemma FirstFailureAt(cs: seq<Context>, what: Context -> Option<Error>, k: nat)
    requires k <= |cs|
    requires forall j :: 0 <= j < k ==> what(cs[j]) == None
    requires k < |cs| ==> what(cs[k]).Some?
    ensures FirstFailure(cs, what) == k
  {
    var f := FirstFailure(cs, what);
    if f < k {
      assert false;
    } else if k < f {
      assert false;
    }
  }

  /** How many pairs in a row `edit` accepts before the first one it fails on. */
  function FirstEditFailure<P>(cs: seq<Context>, what: seq<P>, edit: (Context, P) -> Option<Error>): (k: nat)
    requires |cs| == |what|
    ensures k <= |cs|
    ensures forall j :: 0 <= j < k ==> edit(cs[j], what[j]) == None
    ensures k < |cs| ==> edit(cs[k], what[k]).Some?
  {
    if cs == [] || edit(cs[0], what[0]).Some? then 0
    else
      var k := FirstEditFailure(cs[1..], what[1..], edit);
      assert forall j :: 1 <= j < |cs| ==> cs[j] == cs[1..][j - 1] && what[j] == what[1..][j - 1];
      1 + k
  }

  /** `Contexts.EditAll`: `ErrEmptyContexts` when the two lists differ in
      length (two empty lists are accepted and edit nothing); otherwise edit
      each context with its payload in order and stop at the first error. */
  method EditAll<P>(cs: seq<Context>, what: seq<P>, edit: (Context, P) -> Option<Error>)
    returns (err: Option<Error>, calls: nat)
    ensures |cs| != |what| ==> err == Some(EmptyContexts) && calls == 0
    ensures |cs| == |what| && FirstEditFailure(cs, what, edit) < |cs| ==>
      calls == FirstEditFailure(cs, what, edit) + 1
      && err == edit(cs[FirstEditFailure(cs, what, edit)], what[FirstEditFailure(cs, what, edit)])
    ensures |cs| == |what| && FirstEditFailure(cs, what, edit) == |cs| ==> calls == |cs| && err == None
  {
    if |cs| != |what| {
      return Some(EmptyContexts), 0;
    }
    calls := 0;
    while calls < |cs|
      invariant calls <= |cs|
      invariant forall j :: 0 <= j < calls ==> edit(cs[j], what[j]) == None
    {
      var e := edit(cs[calls], what[calls]);
      calls := calls + 1;
      if e.Some? {
        FirstEditFailureAt(cs, what, edit, calls - 1);
        return e, calls;
      }
    }
    FirstEditFailureAt(cs, what, edit, |cs|);
    return None, calls;
  }

  lemma FirstEditFailureAt<P>(cs: seq<Context>, what: seq<P>, edit: (Context, P) -> Option<Error>, k: nat)
    requires |cs| == |what| && k <= |cs|
    requires forall j :: 0 <= j < k ==> edit(cs[j], what[j]) == None
    requires k < |cs| ==> edit(cs[k], what[k]).Some?
    ensures FirstEditFailure(cs, what, edit) == k
  {
    var f := FirstEditFailure(cs, what, edit);
    if f < k {
      assert false;
    } else if k < f {
      assert false;
    }
  }

  /** With no contexts `All` fails with `ErrEmptyContexts`, but `EditAll`
      with no payloads succeeds; neither calls anything. */
  method EmptyAllEditAll<P>(what: Context -> Option<Error>, edit: (Context, P) -> Option<Error>)
    returns (allErr: Option<Error>, allCalls: nat, editErr: Option<Error>, editCalls: nat)
    ensures allErr == Some(EmptyContexts) && allCalls == 0
    ensures editErr == None && editCalls == 0
  {
    allErr, allCalls := All([], what);
    editErr, editCalls := EditAll([], [], edit);
  }

  // ---------------------------------------------------------------------------
  // Album.WithCaption
  // ---------------------------------------------------------------------------

  /** An album item (`Inputtable`); `WithCaption` on it sets its caption. */
  class Media {
    var caption: string

    constructor (caption: string)
      ensures this.caption == caption
    {
      this.caption := caption;
    }
  }

  /** `Album.WithCaption`: the first item gets `text`, every later one an empty
      caption, in place; the same album is returned. An item that appears again
      later in the album ends with the empty caption. */
  method WithCaption(album: seq<Media>, text: string) returns (r: seq<Media>)
    modifies set m | m in album
    ensures r == album
    ensures forall i :: 1 <= i < |album| ==> album[i].caption == ""
    ensures |album| > 0 && album[0] !in album[1..] ==> album[0].caption == text
  {
    if |album| == 0 {
      return album;
    }
    album[0].caption := text;
    if |album| > 1 {
      var i := 1;
      while i < |album|
        invariant 1 <= i <= |album|
        invariant forall j :: 1 <= j < i ==> album[j].caption == ""
        invariant album[0] !in album[1..i] ==> album[0].caption == text
      {
        album[i].caption := "";
        i := i + 1;
      }
    }
    return album;
  }

  // ---------------------------------------------------------------------------
  // Bulk forward / copy / delete parameters
  // ---------------------------------------------------------------------------

  /** The decimal message ids, in order. */
  function IdStrings(messages: seq<Message>): (ids: seq<string>)
    ensures |ids| == |messages|
    ensures forall i :: 0 <= i < |messages| ==> ids[i] == Text.FormatInt(messages[i].id)
  {
    if messages == [] then []
    else [Text.FormatInt(messages[0].id)] + IdStrings(messages[1..])
  }

  /** The message ids, in order. */
  function IdsOf(messages: seq<Message>): (ids: seq<int>)
    ensures |ids| == |messages|
    ensures forall i :: 0 <= i < |messages| ==> ids[i] == messages[i].id
  {
    if messages == [] then [] else [messages[0].id] + IdsOf(messages[1..])
  }

  /** The loop that collects the ids with `strconv.FormatInt`. */
  method MessageIds(messages: seq<Message>) returns (ids: seq<string>)
    ensures ids == IdStrings(messages)
  {
    ids := [];
    var i := 0;
    while i < |messages|
      invariant i <= |messages| && |ids| == i
      invariant forall j :: 0 <= j < i ==> ids[j] == Text.FormatInt(messages[j].id)
    {
      ids := ids + [Text.FormatInt(messages[i].id)];
      i := i + 1;
    }
  }

  /** `fmt.Sprintf("[%s]", strings.Join(ids, ","))`. */
  function IdList(ids: seq<string>): string {
    "[" + Text.Join(ids, ',') + "]"
  }

  /** Reads back a bracketed comma-separated list of int64s. */
  function ParseIdList(s: string): Option<seq<int>> {
    if |s| < 2 || s[0] != '[' || s[|s| - 1] != ']' then None
    else ParseAll(Text.Split(s[1..|s| - 1], ','))
  }

  function ParseAll(parts: seq<string>): Option<seq<int>> {
    if parts == [] then Some([])
    else match (Text.ParseInt64(parts[0]), ParseAll(parts[1..]))
      case (Some(n), Some(rest)) => Some([n] + rest)
      case _ => None
  }

  /** A decimal rendering holds no comma. */
  lemma FormatIntNoComma(n: int)
    ensures ',' !in Text.FormatInt(n)
  {
    var r := Text.FormatInt(n);
    forall i | 0 <= i < |r| ensures r[i] != ',' {
      if n < 0 && i > 0 {
        assert r[i] == r[1..][i - 1];
      }
    }
  }

  lemma {:induction false} ParseAllFormatted(messages: seq<Message>)
    requires forall i :: 0 <= i < |messages| ==> Text.InInt64(messages[i].id)
    ensures ParseAll(IdStrings(messages)) == Some(IdsOf(messages))
  {
    if messages != [] {
      ParseAllFormatted(messages[1..]);
      Text.ParseFormatInt(messages[0].id);
      assert IdStrings(messages)[1..] == IdStrings(messages[1..]);
    }
  }

  /** The `message_ids` parameter lists exactly the messages' ids, in order. */
  lemma IdListRoundTrip(messages: seq<Message>)
    requires |messages| >= 1
    requires forall i :: 0 <= i < |messages| ==> Text.InInt64(messages[i].id)
    ensures ParseIdList(IdList(IdStrings(messages))) == Some(IdsOf(messages))
  {
    var ids := IdStrings(messages);
    var s := IdList(ids);
    assert s[1..|s| - 1] == Text.Join(ids, ',');
    forall i | 0 <= i < |ids| ensures ',' !in ids[i] {
      FormatIntNoComma(messages[i].id);
    }
    Text.SplitJoin(ids, ',');
    ParseAllFormatted(messages);
  }

  /** `ForwardMessages` and `CopyMessages` up to the request: a nil recipient
      or no messages are refused; otherwise the target chat, the source chat
      (the first message's) and the id list, into which `embedSendOptions`
      then writes `sendOpts`, the entries it derives from the trailing
      options (a later write replaces an earlier one). */
  function TransferParams(to: Option<string>, messages: seq<Message>, sendOpts: map<string, string>)
    : (r: Result<map<string, string>, Error>)
    ensures to == None ==> r == Failure(BadRecipient)
    ensures to != None && messages == [] ==> r == Failure(EmptyMessage)
    ensures to != None && messages != [] ==> r.Success?
    ensures r.Success? ==> (r.value.Keys == {"chat_id", "from_chat_id", "message_ids"} + sendOpts.Keys
                            && (forall k :: k in sendOpts ==> r.value[k] == sendOpts[k])
                            && ("chat_id" !in sendOpts ==> r.value["chat_id"] == to.value)
                            && ("from_chat_id" !in sendOpts ==>
                                  r.value["from_chat_id"] == Text.FormatInt(messages[0].chatId)))
  {
    if to == None then Failure(BadRecipient)
    else if messages == [] then Failure(EmptyMessage)
    else Success(map[
      "chat_id" := to.value,
      "from_chat_id" := Text.FormatInt(messages[0].chatId),
      "message_ids" := IdList(IdStrings(messages))] + sendOpts)
  }

  /** `DeleteMessages` up to the request: no messages are refused; otherwise
      the chat of the first message and the id list, then the entries
      `sendOpts` that `embedSendOptions` writes. */
  function DeleteParams(messages: seq<Message>, sendOpts: map<string, string>)
    : (r: Result<map<string, string>, Error>)
    ensures messages == [] <==> r == Failure(EmptyMessage)
    ensures r.Success? ==> (r.value.Keys == {"chat_id", "message_ids"} + sendOpts.Keys
                            && (forall k :: k in sendOpts ==> r.value[k] == sendOpts[k])
                            && ("chat_id" !in sendOpts ==>
                                  r.value["chat_id"] == Text.FormatInt(messages[0].chatId)))
  {
    if messages == [] then Failure(EmptyMessage)
    else Success(map[
      "chat_id" := Text.FormatInt(messages[0].chatId),
      "message_ids" := IdList(IdStrings(messages))] + sendOpts)
  }

  /** The id list of an accepted transfer names every message, in order,
      unless the send options themselves write `message_ids`. */
  lemma TransferIds(to: Option<string>, messages: seq<Message>, sendOpts: map<string, string>)
    requires to != None && |messages| >= 1 && "message_ids" !in sendOpts
    requires forall i :: 0 <= i < |messages| ==> Text.InInt64(messages[i].id)
    ensures TransferParams(to, messages, sendOpts).Success?
    ensures ParseIdList(TransferParams(to, messages, sendOpts).value["message_ids"])
      == Some(IdsOf(messages))
  {
    IdListRoundTrip(messages);
  }

  /** Likewise for the id list of an accepted deletion. */
  lemma DeleteIds(messages: seq<Message>, sendOpts: map<string, string>)
    requires |messages| >= 1 && "message_ids" !in sendOpts
    requires forall i :: 0 <= i < |messages| ==> Text.InInt64(messages[i].id)
    ensures DeleteParams(messages, sendOpts).Success?
    ensures ParseIdList(DeleteParams(messages, sendOpts).value["message_ids"])
      == Some(IdsOf(messages))
  {
    IdListRoundTrip(messages);
  }

  // ---------------------------------------------------------------------------
  // HandleAlbum
  // ---------------------------------------------------------------------------

  /** An endpoint to register under: telebot's `OnMedia` or another one. */
  datatype Endpoint = OnMedia | Named(name: string)

  /** An option of `HandleAlbum`: a middleware, or anything else (an endpoint). */
  datatype AlbumOpt = Middleware(name: string) | EndpointOpt(endpoint: Endpoint)

  /** The two aggregation policies. */
  datatype Policy = Synced | Unsynced

  /** How long a manager waits before flushing: half a second, in ms. */
  const AlbumDelay: int := 500

  function Endpoints(opts: seq<AlbumOpt>): seq<Endpoint> {
    if opts == [] then []
    else (if opts[0].EndpointOpt? then [opts[0].endpoint] else []) + Endpoints(opts[1..])
  }

  function Middlewares(opts: seq<AlbumOpt>): seq<string> {
    if opts == [] then []
    else (if opts[0].Middleware? then [opts[0].name] else []) + Middlewares(opts[1..])
  }

  /** Every option lands in exactly one of the two lists. */
  lemma {:induction false} OptionsPartition(opts: seq<AlbumOpt>)
    ensures |Endpoints(opts)| + |Middlewares(opts)| == |opts|
    ensures forall e :: e in Endpoints(opts) <==> EndpointOpt(e) in opts
    ensures forall m :: m in Middlewares(opts) <==> Middleware(m) in opts
  {
    if opts != [] {
      OptionsPartition(opts[1..]);
      assert opts == [opts[0]] + opts[1..];
    }
  }

  /** The option loop of `HandleAlbum`: split the options by kind, keeping
      their order, and fall back to `OnMedia` when no endpoint was given. */
  method SplitOptions(opts: seq<AlbumOpt>) returns (endpoints: seq<Endpoint>, middlewares: seq<string>)
    ensures endpoints == if Endpoints(opts) == [] then [OnMedia] else Endpoints(opts)
    ensures middlewares == Middlewares(opts)
  {
    endpoints, middlewares := [], [];
    var i := 0;
    while i < |opts|
      invariant i <= |opts|
      invariant endpoints + Endpoints(opts[i..]) == Endpoints(opts)
      invariant middlewares + Middlewares(opts[i..]) == Middlewares(opts)
    {
      assert opts[i..][1..] == opts[i + 1..];
      if opts[i].Middleware? {
        middlewares := middlewares + [opts[i].name];
      } else {
        endpoints := endpoints + [opts[i].endpoint];
      }
      i := i + 1;
    }
    if |endpoints| == 0 {
      endpoints := endpoints + [OnMedia];
    }
  }

  /** `HandleAlbum`: a synchronous bot gets the synced manager, any other the
      unsynced one, both with the half-second delay; one registration per
      endpoint, each with all the middlewares. */
  method HandleAlbum(synchronous: bool, opts: seq<AlbumOpt>)
    returns (policy: Policy, delay: int, endpoints: seq<Endpoint>, middlewares: seq<string>)
    ensures policy == (if synchronous then Synced else Unsynced)
    ensures delay == AlbumDelay
    ensures |endpoints| >= 1
    ensures endpoints == if Endpoints(opts) == [] then [OnMedia] else Endpoints(opts)
    ensures middlewares == Middlewares(opts)
  {
    endpoints, middlewares := SplitOptions(opts);
    delay := AlbumDelay;
    policy := if synchronous then Synced else Unsynced;
  }
}
