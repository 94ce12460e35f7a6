/** The pure helpers of `utils.py`: chat-command dispatch, the model-list
    filter with its fall-backs, the avatar choice and the image data URI. */
module Utils {
  import opened Wrappers
  import Strings
  import Base64

  // ---------------------------------------------------------------------------
  // command

  /** What `command` does with an input line. The pull itself runs on a
      background event loop and is not modelled; the list is what
      `list_ollama_models` returns for the given tags response. */
  datatype CommandResult =
    | PullRequested(modelName: string)
    | Listed(models: seq<string>)
    | Reply(text: string)

  const HelpText: string := "الأوامر الممكنة:\n- /pull <اسم_النموذج>\n- /list\n- /help"

  /** Twenty spaces: the indentation that the triple-quoted literal keeps. */
  const Indent: string := "                    "

  const InvalidText: string :=
    "أمر غير صالح، يرجى استخدام أحد الأوامر التالية:\n\n"
    + Indent + "- /help\n\n"
    + Indent + "- /pull <اسم_النموذج>\n\n"
    + Indent + "- /list"

  /** `command(user_input)`: split on single spaces, then dispatch on the first
      token. `/pull` needs a second token and pulls exactly that token. */
  function Command(userInput: string, tags: TagsResponse): (r: CommandResult)
    ensures r.PullRequested? <==> Strings.Split(userInput, ' ')[0] == "/pull" && |Strings.Split(userInput, ' ')| > 1
    ensures r.PullRequested? ==> forall j :: 0 <= j < |r.modelName| ==> r.modelName[j] != ' '
    ensures r.Listed? <==> Strings.Split(userInput, ' ')[0] == "/list"
    ensures r.Listed? ==> r.models == ListOllamaModels(tags)
    ensures r.Reply? ==> r.text == HelpText || r.text == InvalidText
    ensures r == Reply(HelpText) <==> Strings.Split(userInput, ' ')[0] == "/help"
  {
    var tokens := Strings.Split(userInput, ' ');
    if tokens[0] == "/pull" && |tokens| > 1 then PullRequested(tokens[1])
    else if tokens[0] == "/list" then Listed(ListOllamaModels(tags))
    else if tokens[0] == "/help" then Reply(HelpText)
    else Reply(InvalidText)
  }

  lemma {:induction false} SplitSingleSpace(a: string, b: string)
    requires forall j :: 0 <= j < |a| ==> a[j] != ' '
    ensures Strings.Split(a + " " + b, ' ') == [a] + Strings.Split(b, ' ')
  {
    Strings.SplitAtSeparator(a, b, ' ');
    Strings.SplitNoSeparator(a, ' ');
  }

  /** `/pull NAME` and `/pull NAME rest…` pull exactly NAME. */
  lemma PullSecondToken(modelName: string, rest: string, tags: TagsResponse)
    requires forall j :: 0 <= j < |modelName| ==> modelName[j] != ' '
    ensures Command("/pull " + modelName, tags) == PullRequested(modelName)
    ensures Command("/pull " + modelName + " " + rest, tags) == PullRequested(modelName)
  {
    Strings.SplitNoSeparator(modelName, ' ');
    SplitSingleSpace("/pull", modelName);
    SplitSingleSpace(modelName, rest);
    SplitSingleSpace("/pull", modelName + " " + rest);
    assert "/pull " + modelName == "/pull" + " " + modelName;
    assert "/pull " + modelName + " " + rest == "/pull" + " " + (modelName + " " + rest);
  }

  /** Conversely, a pull request comes only from `/pull`, one space, the model
      name, and then nothing or a space and anything. */
  lemma PullShape(userInput: string, tags: TagsResponse)
    requires Command(userInput, tags).PullRequested?
    ensures var m := Command(userInput, tags).modelName;
      exists rest :: userInput == "/pull " + m + rest && (rest == "" || rest[0] == ' ')
  {
    var tokens := Strings.Split(userInput, ' ');
    var m := tokens[1];
    Strings.JoinSplit(userInput, ' ');
    assert tokens == ["/pull"] + tokens[1..];
    Strings.JoinCons("/pull", tokens[1..], " ");
    var tail := tokens[1..];
    if |tail| == 1 {
      assert userInput == "/pull " + m + "";
    } else {
      assert tail == [m] + tail[1..];
      Strings.JoinCons(m, tail[1..], " ");
      var rest := " " + Strings.Join(tail[1..], " ");
      assert userInput == "/pull " + m + rest;
    }
  }

  /** `/pull` with no argument is not a command. */
  lemma PullAloneInvalid(tags: TagsResponse)
    ensures Command("/pull", tags) == Reply(InvalidText)
  {
    Strings.SplitNoSeparator("/pull", ' ');
  }

  /** `/pull ` with a trailing space pulls the empty model name: the split
      yields an empty second token. */
  lemma PullTrailingSpace(tags: TagsResponse)
    ensures Command("/pull ", tags) == PullRequested("")
  {
    PullSecondToken("", "", tags);
    assert "/pull " + "" == "/pull ";
  }

  /** `/list` and `/help` act whatever follows them after a space. */
  lemma ListAndHelpIgnoreRest(rest: string, tags: TagsResponse)
    ensures Command("/list", tags) == Listed(ListOllamaModels(tags))
    ensures Command("/list " + rest, tags) == Listed(ListOllamaModels(tags))
    ensures Command("/help", tags) == Reply(HelpText)
    ensures Command("/help " + rest, tags) == Reply(HelpText)
  {
    Strings.SplitNoSeparator("/list", ' ');
    Strings.SplitNoSeparator("/help", ' ');
    SplitSingleSpace("/list", rest);
    SplitSingleSpace("/help", rest);
    assert "/list " + rest == "/list" + " " + rest;
    assert "/help " + rest == "/help" + " " + rest;
  }

  /** A leading space makes the first token empty, so the input is invalid. */
  lemma LeadingSpaceInvalid(s: string, tags: TagsResponse)
    ensures Command(" " + s, tags) == Reply(InvalidText)
  {
    SplitSingleSpace("", s);
    assert " " + s == "" + " " + s;
  }

  /** A first token that is none of the commands gives the invalid-command text. */
  lemma UnknownCommandInvalid(userInput: string, tags: TagsResponse)
    requires Strings.Split(userInput, ' ')[0] !in {"/pull", "/list", "/help"}
    ensures Command(userInput, tags) == Reply(InvalidText)
  {
  }

  // ---------------------------------------------------------------------------
  // list_ollama_models

  /** The outcome of `GET /api/tags`: a `RequestException` (which includes
      the status error of `raise_for_status` and the `JSONDecodeError` of a
      body that is not JSON), or a decoded body whose `error` field is truthy
      or not, with the model names in response order. */
  datatype TagsResponse =
    | RequestFailed
    | Body(hasError: bool, names: seq<string>)

  const FallbackModel: string := "bge-m3:latest"

  /** A name is a chat model unless it contains "embed". */
  predicate IsChatModel(name: string) {
    !Strings.Contains(name, "embed")
  }

  /** The comprehension of `list_ollama_models`. */
  function ChatModels(names: seq<string>): (r: seq<string>)
    ensures forall i :: 0 <= i < |r| ==> r[i] in names && !Strings.Contains(r[i], "embed")
    ensures forall i :: 0 <= i < |names| && !Strings.Contains(names[i], "embed") ==> names[i] in r
  {
    Filter(names, IsChatModel)
  }

  /** The filter keeps response order: it distributes over concatenation. */
  lemma ChatModelsAppend(a: seq<string>, b: seq<string>)
    ensures ChatModels(a + b) == ChatModels(a) + ChatModels(b)
  {
    FilterAppend(a, b, IsChatModel);
  }

  /** `list_ollama_models`: the fall-back model on a request exception, nothing
      when the body reports an error, else the chat models. */
  function ListOllamaModels(tags: TagsResponse): (r: seq<string>)
    ensures tags.RequestFailed? ==> r == [FallbackModel]
    ensures tags.Body? && tags.hasError ==> r == []
    ensures tags.Body? && !tags.hasError ==> r == ChatModels(tags.names)
  {
    match tags
    case RequestFailed => [FallbackModel]
    case Body(hasError, names) => if hasError then [] else ChatModels(names)
  }

  /** An embedding model is dropped, a chat model kept. */
  lemma EmbeddingModelDropped()
    ensures ChatModels(["llama3:latest", "nomic-embed-text:latest"]) == ["llama3:latest"]
  {
    assert Strings.OccursAt("nomic-embed-text:latest", "embed", 6);
    var n := "llama3:latest";
    forall i | 0 <= i <= |n| - 5 ensures !Strings.OccursAt(n, "embed", i) {
      assert n[i] != 'e';
    }
    assert IsChatModel(n);
  }

  // ---------------------------------------------------------------------------
  // get_avatar

  const UserIcon: string := "chat_icons/user_image.png"
  const BotIcon: string := "chat_icons/bot_image.png"

  /** `get_avatar`: the user icon exactly for "user", the bot icon otherwise. */
  function GetAvatar(senderType: string): (r: string)
    ensures r == UserIcon <==> senderType == "user"
    ensures r == BotIcon <==> senderType != "user"
  {
    if senderType == "user" then UserIcon else BotIcon
  }

  // ---------------------------------------------------------------------------
  // convert_bytes_to_base64(_with_prefix)

  const JpegPrefix: string := "data:image/jpeg;base64,"

  /** `convert_bytes_to_base64`: the base64 text, which decodes back to the
      bytes. */
  function ConvertBytesToBase64(bs: seq<Base64.Byte>): (r: string)
    ensures |r| == 4 * ((|bs| + 2) / 3)
    ensures Base64.Decode(r) == Some(bs)
  {
    Base64.DecodeEncode(bs);
    Base64.Encode(bs)
  }

  /** `convert_bytes_to_base64_with_prefix`: the JPEG data-URI prefix, then the
      base64 text; dropping the prefix and decoding gives the bytes back. */
  function ConvertBytesToBase64WithPrefix(bs: seq<Base64.Byte>): (r: string)
    ensures |r| == |JpegPrefix| + 4 * ((|bs| + 2) / 3)
    ensures r[..|JpegPrefix|] == JpegPrefix
    ensures Base64.Decode(r[|JpegPrefix|..]) == Some(bs)
  {
    var r := JpegPrefix + ConvertBytesToBase64(bs);
    assert r[|JpegPrefix|..] == ConvertBytesToBase64(bs);
    r
  }
}
