/**
  The `post` command of the asynchronous toot client and the `--language`
  check that Click runs before it (toot/asynch/commands.py).

  Every fact `post` learns from outside is an input: whether standard input is
  a terminal, what was piped into it, what the editor and the interactive
  prompt return, and what each call of the upload stub returns. The command
  then either raises a Click error or ends with a resolved toot: its text, the
  ids of the uploaded media and the (file, description) pair each upload was
  given.
 */
module Commands {
  import opened Wrappers
  import opened Text

  /** At most this many files may be attached to one toot. */
  const MaxAttachments := 4

  const LanguageMessage := "Expected a 3 letter abbreviation according to ISO 639-2 standard."
  const NoTtyMessage := "Cannot run editor if not in tty."
  const TooManyMessage := "Cannot attach more than 4 files."
  const NothingMessage := "You must specify either text or media to post."

  /** The two Click exceptions the command raises. */
  datatype CliError = BadParameter(message: string) | UsageError(message: string)

  /** What one call of the upload stub returns: a media id and a URL standing
      for the file. */
  datatype Upload = Upload(id: int, textUrl: string)

  /** The arguments of one call of the upload stub. */
  datatype Attachment = Attachment(path: string, description: Option<string>)

  /** The arguments and options of `post` as Click hands them over: the
      optional TEXT argument, the editor command of `-e` (the value of $EDITOR,
      `None` when the flag is absent), the `-m` paths and
      the `-d` descriptions in command-line order, and `-l`. */
  datatype PostArgs = PostArgs(
    text: Option<string>,
    editor: Option<string>,
    media: seq<string>,
    description: seq<string>,
    language: Option<string>)

  /** The outside world as `post` sees it. `editorInput(cmd, text)` is what the
      editor `cmd` returns when opened on `text`; `multiline` is what the
      interactive prompt returns; the i-th call of the upload stub returns
      `uploads[i]`. */
  datatype Console = Console(
    stdinIsTty: bool,
    piped: string,
    editorInput: (string, Option<string>) -> string,
    multiline: string,
    uploads: seq<Upload>)

  /** The toot `post` resolved. */
  datatype Draft = Draft(
    text: string,
    mediaIds: seq<int>,
    attachments: seq<Attachment>,
    language: Option<string>)

  /** `validate_language`: the `--language` callback accepts a value of exactly
      three characters, unchanged, and rejects every other length. */
  function ValidateLanguage(value: string): (r: Result<string, CliError>)
    ensures r.Success? <==> |value| == 3
    ensures r.Success? ==> r.value == value
    ensures r.Failure? ==> r.error == BadParameter(LanguageMessage)
  {
    if |value| != 3 then Failure(BadParameter(LanguageMessage)) else Success(value)
  }

  /** Python's truth value of an optional string: `None` and `""` are false. */
  predicate Truthy(s: Option<string>)
  {
    s.Some? && s.value != []
  }

  /** The stand-in for the upload stub has a result for every call `post`
      makes; no call is made when there are too many files. */
  predicate HasUploads(args: PostArgs, con: Console)
  {
    |args.media| <= MaxAttachments ==> |args.media| <= |con.uploads|
  }

  /** The editor was asked for but standard input is not a terminal. */
  predicate EditorWithoutTty(args: PostArgs, con: Console)
  {
    Truthy(args.editor) && !con.stdinIsTty
  }

  /** The text once piped input has been read: the piped input without its
      trailing whitespace when no text was given and stdin is not a terminal. */
  function PipedText(args: PostArgs, con: Console): Option<string>
  {
    if !Truthy(args.text) && !con.stdinIsTty then Some(RStrip(con.piped)) else args.text
  }

  /** The description passed along with the i-th file: the i-th description,
      stripped, if there is one, and `None` otherwise. */
  function DescriptionAt(description: seq<string>, i: nat): Option<string>
  {
    if i < |description| then Some(Strip(description[i])) else None
  }

  /** The upload calls `post` makes, one per file in command-line order. */
  function Attachments(media: seq<string>, description: seq<string>): seq<Attachment>
  {
    seq(|media|, i requires 0 <= i < |media| => Attachment(media[i], DescriptionAt(description, i)))
  }

  /** The results of those upload calls. */
  function Uploaded(args: PostArgs, con: Console): seq<Upload>
    requires |args.media| <= |con.uploads|
  {
    con.uploads[..|args.media|]
  }

  /** `[m["id"] for m in uploaded_media]` */
  function Ids(uploaded: seq<Upload>): seq<int>
  {
    seq(|uploaded|, i requires 0 <= i < |uploaded| => uploaded[i].id)
  }

  /** The `text_url`s of the uploads, in order. */
  function Urls(uploaded: seq<Upload>): seq<string>
  {
    seq(|uploaded|, i requires 0 <= i < |uploaded| => uploaded[i].textUrl)
  }

  /** The text once the uploads are done: still without text, a toot with
      media gets the media URLs, one per line. */
  function TextWithMedia(args: PostArgs, con: Console): Option<string>
    requires |args.media| <= |con.uploads|
  {
    var text := PipedText(args, con);
    var uploaded := Uploaded(args, con);
    if |uploaded| > 0 && !Truthy(text) then Some(Join("\n", Urls(uploaded))) else text
  }

  /** The final text: the editor's output when an editor is set, otherwise the
      interactive input when there is still no text. */
  function ComposedText(args: PostArgs, con: Console): Option<string>
    requires |args.media| <= |con.uploads|
  {
    var text := TextWithMedia(args, con);
    if Truthy(args.editor) then Some(con.editorInput(args.editor.value, text))
    else if !Truthy(text) then Some(con.multiline)
    else text
  }

  /** The body of `post`: the checks in their order and the resolved toot. */
  function ResolvePost(args: PostArgs, con: Console): (r: Result<Draft, CliError>)
    requires HasUploads(args, con)
    ensures r.Failure? ==> r.error.UsageError?
    ensures r.Success? ==> !EditorWithoutTty(args, con) && |args.media| <= MaxAttachments
    ensures r.Success? ==> r.value.text != [] && r.value.language == args.language
    ensures r.Success? ==>
      |r.value.mediaIds| == |r.value.attachments| == |args.media| &&
      forall i :: 0 <= i < |args.media| ==>
        r.value.mediaIds[i] == con.uploads[i].id &&
        r.value.attachments[i].path == args.media[i] &&
        r.value.attachments[i].description ==
          (if i < |args.description| then Some(Strip(args.description[i])) else None)
  {
    if EditorWithoutTty(args, con) then Failure(UsageError(NoTtyMessage))
    else if |args.media| > MaxAttachments then Failure(UsageError(TooManyMessage))
    else
      var text := ComposedText(args, con);
      if !Truthy(text) then Failure(UsageError(NothingMessage))
      else Success(Draft(text.value, Ids(Uploaded(args, con)), Attachments(args.media, args.description), args.language))
  }

  /** The upload loop of `post`: one call of the upload stub per file, in
      order, each given the description at its position; the i-th call
      returns `uploads[i]`. */
  method UploadAll(media: seq<string>, description: seq<string>, uploads: seq<Upload>)
    returns (uploaded: seq<Upload>, sent: seq<Attachment>)
    requires |media| <= |uploads|
    ensures uploaded == uploads[..|media|]
    ensures sent == Attachments(media, description)
  {
    uploaded, sent := [], [];
    for idx := 0 to |media|
      invariant uploaded == uploads[..idx]
      invariant |sent| == idx
      invariant forall k :: 0 <= k < idx ==> sent[k] == Attachment(media[k], DescriptionAt(description, k))
    {
      var fileDesc := if idx < |description| then Some(Strip(description[idx])) else None;
      uploaded := uploaded + [uploads[idx]];
      sent := sent + [Attachment(media[idx], fileDesc)];
    }
  }

  /** `post` as written: early exits, `text` reassigned step by step, and the
      upload loop of `UploadAll`. */
  method Post(args: PostArgs, con: Console) returns (r: Result<Draft, CliError>)
    requires HasUploads(args, con)
    ensures r == ResolvePost(args, con)
  {
    if Truthy(args.editor) && !con.stdinIsTty {
      return Failure(UsageError(NoTtyMessage));
    }
    if |args.media| > MaxAttachments {
      return Failure(UsageError(TooManyMessage));
    }
    var text := args.text;
    if !Truthy(text) && !con.stdinIsTty {
      text := Some(RStrip(con.piped));
    }
    assert text == PipedText(args, con);
    var uploaded, sent := UploadAll(args.media, args.description, con.uploads);
    assert uploaded == Uploaded(args, con);
    var mediaIds := Ids(uploaded);
    if |uploaded| > 0 && !Truthy(text) {
      text := Some(Join("\n", Urls(uploaded)));
    }
    assert text == TextWithMedia(args, con);
    if Truthy(args.editor) {
      text := Some(con.editorInput(args.editor.value, text));
    } else if !Truthy(text) {
      text := Some(con.multiline);
    }
    assert text == ComposedText(args, con);
    if !Truthy(text) {
      return Failure(UsageError(NothingMessage));
    }
    r := Success(Draft(text.value, mediaIds, sent, args.language));
  }

  /** The whole command: Click runs the `--language` callback while parsing,
      before the body of `post`. */
  function InvokePost(args: PostArgs, con: Console): (r: Result<Draft, CliError>)
    requires HasUploads(args, con)
    ensures r.Success? ==> r.value.language.None? || |r.value.language.value| == 3
  {
    if args.language.Some? && ValidateLanguage(args.language.value).Failure? then
      Failure(ValidateLanguage(args.language.value).error)
    else
      ResolvePost(args, con)
  }

  /** A malformed `--language` is rejected before the body of `post` runs,
      whatever the other arguments; a well-formed one lets the body decide. */
  lemma LanguageCheckedFirst(args: PostArgs, con: Console)
    requires HasUploads(args, con)
    ensures args.language.Some? && |args.language.value| != 3 ==>
      InvokePost(args, con) == Failure(BadParameter(LanguageMessage))
    ensures args.language.None? || |args.language.value| == 3 ==>
      InvokePost(args, con) == ResolvePost(args, con)
  {
  }

  /** Asking for the editor without a terminal is an error, whatever else was
      given, too many files included: this check comes first. */
  lemma EditorNeedsTty(args: PostArgs, con: Console)
    requires HasUploads(args, con)
    requires EditorWithoutTty(args, con)
    ensures ResolvePost(args, con) == Failure(UsageError(NoTtyMessage))
  {
  }

  /** More than four files is an error, and no upload result is consulted:
      any other upload results give the same error. */
  lemma TooManyAttachments(args: PostArgs, con: Console, other: seq<Upload>)
    requires !EditorWithoutTty(args, con)
    requires |args.media| > MaxAttachments
    ensures ResolvePost(args, con) == Failure(UsageError(TooManyMessage))
    ensures ResolvePost(args, con.(uploads := other)) == Failure(UsageError(TooManyMessage))
  {
  }

  /** A non-empty TEXT argument is the toot's text unless an editor is set:
      neither piped input, nor media URLs, nor the prompt replace it. */
  lemma GivenTextKept(args: PostArgs, con: Console)
    requires HasUploads(args, con)
    requires !EditorWithoutTty(args, con) && |args.media| <= MaxAttachments
    requires Truthy(args.text) && !Truthy(args.editor)
    ensures ResolvePost(args, con).Success?
    ensures ResolvePost(args, con).value.text == args.text.value
  {
  }

  /** Without a TEXT argument and with piped standard input, the text is the
      piped input with its trailing whitespace removed: a prefix of it, after
      which the piped input holds only whitespace. */
  lemma PipedInputRead(args: PostArgs, con: Console)
    requires !Truthy(args.text) && !con.stdinIsTty
    ensures PipedText(args, con) == Some(RStrip(con.piped))
    ensures var t := PipedText(args, con).value;
      t == con.piped[..|t|] && forall k :: |t| <= k < |con.piped| ==> IsSpace(con.piped[k])
  {
  }

  /** End to end: with piped input, no TEXT, no editor and at most four files,
      the toot's text is the piped input without trailing whitespace, if that
      is not empty. */
  lemma PipedTextPosted(args: PostArgs, con: Console)
    requires HasUploads(args, con)
    requires !Truthy(args.text) && !con.stdinIsTty && !Truthy(args.editor)
    requires |args.media| <= MaxAttachments && RStrip(con.piped) != []
    ensures ResolvePost(args, con) == Success(Draft(
      RStrip(con.piped), Ids(Uploaded(args, con)), Attachments(args.media, args.description), args.language))
  {
  }

  /** Descriptions beyond the number of files are never used. */
  lemma ExtraDescriptionsIgnored(args: PostArgs, con: Console, extra: seq<string>)
    requires HasUploads(args, con)
    requires |args.media| <= |args.description|
    ensures ResolvePost(args.(description := args.description + extra), con) == ResolvePost(args, con)
  {
    var longer := args.(description := args.description + extra);
    assert Attachments(longer.media, longer.description) == Attachments(args.media, args.description);
  }

  /** A description that is all whitespace is passed on as the empty string,
      not dropped. */
  lemma BlankDescriptionPassedEmpty(args: PostArgs, con: Console, i: nat)
    requires HasUploads(args, con)
    requires i < |args.media| && i < |args.description| && AllSpace(args.description[i])
    requires ResolvePost(args, con).Success?
    ensures ResolvePost(args, con).value.attachments[i].description == Some([])
  {
    var d := args.description[i];
    assert d + [] + [] == d;
    StripExact(d, [], []);
  }

  /** Text still missing after the uploads is the upload URLs, one per line:
      splitting it at line breaks gives back every URL, in upload order. */
  lemma MediaUrlsBecomeText(args: PostArgs, con: Console)
    requires |args.media| <= |con.uploads|
    requires |args.media| > 0 && !Truthy(PipedText(args, con))
    requires forall i :: 0 <= i < |args.media| ==> '\n' !in con.uploads[i].textUrl
    ensures TextWithMedia(args, con) == Some(Join("\n", Urls(Uploaded(args, con))))
    ensures Split(TextWithMedia(args, con).value, '\n') ==
      seq(|args.media|, i requires 0 <= i < |args.media| => con.uploads[i].textUrl)
  {
    var urls := Urls(Uploaded(args, con));
    SplitJoin(urls, '\n');
  }

  /** Text that is already there is not replaced by the media URLs. */
  lemma TextKeptOverUrls(args: PostArgs, con: Console)
    requires |args.media| <= |con.uploads|
    requires Truthy(PipedText(args, con))
    ensures TextWithMedia(args, con) == PipedText(args, con)
  {
  }

  /** With an editor set, its output is the final text, opened on the text
      resolved so far; the toot is refused exactly when that output is empty. */
  lemma EditorHasLastWord(args: PostArgs, con: Console)
    requires HasUploads(args, con)
    requires !EditorWithoutTty(args, con) && |args.media| <= MaxAttachments
    requires Truthy(args.editor)
    ensures var out := con.editorInput(args.editor.value, TextWithMedia(args, con));
      (ResolvePost(args, con).Success? <==> out != []) &&
      (ResolvePost(args, con).Success? ==> ResolvePost(args, con).value.text == out) &&
      (ResolvePost(args, con).Failure? ==> ResolvePost(args, con).error == UsageError(NothingMessage))
  {
  }

  /** Without an editor the interactive prompt is used only when there is still
      no text, and an empty answer is refused. */
  lemma PromptOnlyWithoutText(args: PostArgs, con: Console)
    requires HasUploads(args, con)
    requires |args.media| <= MaxAttachments && !Truthy(args.editor)
    ensures Truthy(TextWithMedia(args, con)) ==>
      ResolvePost(args, con).Success? && ResolvePost(args, con).value.text == TextWithMedia(args, con).value
    ensures !Truthy(TextWithMedia(args, con)) ==>
      (ResolvePost(args, con).Success? <==> con.multiline != []) &&
      (ResolvePost(args, con).Success? ==> ResolvePost(args, con).value.text == con.multiline) &&
      (ResolvePost(args, con).Failure? ==> ResolvePost(args, con).error == UsageError(NothingMessage))
  {
  }

  /** A single file, no text, no description, no editor, at a terminal: the
      toot's text is the file's URL. */
  lemma SingleAttachmentUrl(path: string, u: Upload, language: Option<string>, con: Console)
    requires con.stdinIsTty && con.uploads == [u] && u.textUrl != []
    ensures ResolvePost(PostArgs(None, None, [path], [], language), con) ==
      Success(Draft(u.textUrl, [u.id], [Attachment(path, None)], language))
  {
    var args := PostArgs(None, None, [path], [], language);
    assert Uploaded(args, con) == [u];
    assert Urls([u]) == [u.textUrl] && Ids([u]) == [u.id];
    assert TextWithMedia(args, con) == Some(u.textUrl);
    assert Attachments(args.media, args.description) == [Attachment(path, None)];
  }

  /** No text, no files and an empty answer at the prompt: nothing to post. */
  lemma NothingToPost(args: PostArgs, con: Console)
    requires !Truthy(args.text) && args.media == [] && !Truthy(args.editor)
    requires con.stdinIsTty || RStrip(con.piped) == []
    requires con.multiline == []
    ensures ResolvePost(args, con) == Failure(UsageError(NothingMessage))
  {
  }

  /** Files attached do not save a toot whose editor returned nothing: the
      final check looks at the text alone. */
  lemma MediaWithEmptyEditorTextRefused(path: string, u: Upload)
    ensures var con := Console(true, [], (cmd, text) => [], [], [u]);
      ResolvePost(PostArgs(None, Some("vi"), [path], [], None), con) == Failure(UsageError(NothingMessage))
  {
  }
}
