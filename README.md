# toot `post`: resolving a toot from its arguments

A Dafny model of the decision logic of the `post` command of the asynchronous
toot client (`toot/asynch/commands.py`) and of the `validate_language`
callback that Click runs on `--language` before the command body.

`post` takes an optional TEXT argument, an optional editor (`-e`, whose value
is the `$EDITOR` command), up to four media paths (`-m`), descriptions (`-d`)
paired with the paths by position, and a language. It then:

1. refuses to open an editor when standard input is not a terminal;
2. refuses more than four files;
3. without a TEXT argument and with piped standard input, reads the piped
   input and drops its trailing whitespace;
4. uploads each file with the description at the same position, stripped;
5. without text so far, uses the uploads' URLs, one per line;
6. lets the editor have the last word when one is set, otherwise asks at the
   prompt when there is still no text;
7. refuses an empty final text.

The model is in three modules:

- `Wrappers` (`wrappers.dfy`): `Option` and `Result`.
- `Text` (`text.dfy`): the Python string operations the command relies on:
  the whitespace set of `str.isspace`; `rstrip()` and `strip()` written as
  CPython computes them, by scanning indices in from each end and taking one
  slice; `lstrip()` as an independent reference, with `strip()` proved equal
  to `lstrip()` followed by `rstrip()`; `join`; and `split`, proved inverse
  to `join` in both directions.
- `Commands` (`commands.dfy`): `ValidateLanguage`; `ResolvePost`, the body of
  `post` as a function from the arguments and a `Console` to a
  `Result<Draft, CliError>`; `Post`, the same body written as the source
  writes it (early exits, `text` reassigned step by step), proved equal to
  `ResolvePost`; `UploadAll`, its upload loop, a `for` loop that records
  each upload call and result; `InvokePost`, the
  language check followed by the body; and the lemmas below.

Everything the command learns from outside is an input, held in `Console`:
whether stdin is a terminal, the piped input, the editor as a function from
(editor command, text so far) to its output, the prompt's answer, and the
results of the upload stub, the i-th call returning `uploads[i]`. The
`Draft` that a successful run yields holds the text, the media ids, the
(path, description) pair each upload call received, and the language.

Python's truth value of an optional string (`None` and `""` are both false)
is `Truthy`; it decides every `not text` and `if editor` of the source.

Two behaviours of the code are worth spelling out:

- The description at line 107 is `description[idx].strip()` whenever that
  index exists, so a description made only of whitespace reaches the upload
  as `""`, not as `None` (`BlankDescriptionPassedEmpty`).
- The final check at lines 123-124 looks only at the text, although its
  message ("You must specify either text or media to post.") suggests that
  attached media would be enough. A run with files whose editor returns
  nothing is refused (`EditorHasLastWord`, `MediaWithEmptyEditorTextRefused`).

## Model

| member | source | states |
|---|---|---|
| Commands.ValidateLanguage | toot/asynch/commands.py:28-34 | accepts exactly the values of length 3 and returns them unchanged; every other length is a BadParameter error with the ISO 639-2 message |
| Commands.InvokePost | toot/asynch/commands.py:80-86 | Click runs the `validate_language` callback before the body of `post`; a resolved toot carries no language or a three-character one |
| Commands.LanguageCheckedFirst | toot/asynch/commands.py:80-86 | a supplied language of the wrong length fails with BadParameter whatever the other arguments; a valid or absent one leaves the outcome to the body of `post` |
| Commands.ResolvePost | toot/asynch/commands.py:93-124 | only usage errors are raised; a resolved toot comes from at most four files with no editor-without-terminal, has non-empty text, one media id per file in order (the i-th upload's id), and gives file i the stripped i-th description when there is one and none otherwise |
| Commands.Post | toot/asynch/commands.py:93-124 | the step-by-step body with its upload loop yields exactly the outcome `ResolvePost` specifies |
| Commands.UploadAll | toot/asynch/commands.py:104-110 | the loop makes one upload call per file, in order, file i with the stripped i-th description when there is one and none otherwise, and collects the results of exactly those calls |
| Commands.EditorNeedsTty | toot/asynch/commands.py:93-97 | an editor requested without a terminal is a usage error whatever else was given, including more than four files: this check runs first |
| Commands.TooManyAttachments | toot/asynch/commands.py:96-110 | more than four files is a usage error, and the outcome is the same whatever the upload results: no upload is consulted |
| Commands.PipedInputRead | toot/asynch/commands.py:100-101 | without a TEXT argument and with piped input, the text is the piped input minus a suffix made only of whitespace |
| Commands.PipedTextPosted | toot/asynch/commands.py:99-124 | with piped input, no TEXT, no editor and at most four files, the toot's text is the piped input with trailing whitespace removed, if that is not empty |
| Commands.GivenTextKept | toot/asynch/commands.py:100-121 | a non-empty TEXT argument is the final text when no editor is set: piped input, media URLs and the prompt never replace it |
| Commands.ExtraDescriptionsIgnored | toot/asynch/commands.py:106-107 | when there are at least as many descriptions as files, adding more descriptions changes nothing |
| Commands.BlankDescriptionPassedEmpty | toot/asynch/commands.py:107 | a description made only of whitespace reaches the upload as the empty string, not as no description |
| Commands.MediaUrlsBecomeText | toot/asynch/commands.py:114-115 | with files and no text, the text is exactly the uploads' URLs joined by line breaks, and splitting it at line breaks gives back every URL in upload order |
| Commands.TextKeptOverUrls | toot/asynch/commands.py:114-115 | text already present is not replaced by the media URLs |
| Commands.EditorHasLastWord | toot/asynch/commands.py:117-124 | with an editor set, the final text is the editor's output on the text resolved so far, and the toot is refused exactly when that output is empty, even with files attached |
| Commands.PromptOnlyWithoutText | toot/asynch/commands.py:117-124 | without an editor, existing text is kept and the prompt is not used; with no text the prompt's answer is the text, and an empty answer is a usage error |
| Commands.SingleAttachmentUrl | toot/asynch/commands.py:104-115 | one file, no text, no description, no editor, at a terminal: the toot's text is that upload's URL and its media ids are that upload's id |
| Commands.NothingToPost | toot/asynch/commands.py:117-124 | no text, no files, no editor and an empty prompt answer give the "specify either text or media" usage error |
| Commands.MediaWithEmptyEditorTextRefused | toot/asynch/commands.py:117-124 | a concrete run with one file whose editor returns nothing is refused |
| Text.TrimStart | toot/asynch/commands.py:107 | the left scan of strip stops at the first non-whitespace position at or after its start, having passed only whitespace |
| Text.TrimEnd | toot/asynch/commands.py:101 | the right scan stops above its lower bound only after a non-whitespace character, having passed only whitespace |
| Text.TrimStartAt | toot/asynch/commands.py:107 | the left scan stops exactly at the first non-whitespace position, whichever it is |
| Text.TrimEndAt | toot/asynch/commands.py:101 | the right scan stops exactly after the last non-whitespace character above its lower bound |
| Text.RStrip | toot/asynch/commands.py:101 | the result is a prefix of the input, what it drops is all whitespace, and it does not end in whitespace |
| Text.RStripExact | toot/asynch/commands.py:101 | rstrip removes exactly the trailing whitespace and nothing else |
| Text.IsSpace | toot/asynch/commands.py:101 | the characters Python's `rstrip()` and `strip()` remove: exactly those `str.isspace` accepts |
| Text.LStrip | toot/asynch/commands.py:107 | reference for the left half of `strip()`: the result is a suffix of the input, what it drops is all whitespace, and it does not start with whitespace |
| Text.LStripExact | toot/asynch/commands.py:107 | the left half of `strip()` removes exactly the leading whitespace and nothing else |
| Text.Strip | toot/asynch/commands.py:107 | the result is no longer than the input and neither starts nor ends with whitespace |
| Text.StripSlice | toot/asynch/commands.py:107 | the result of strip is a contiguous part of the input with only whitespace before and after it |
| Text.RStripSuffix | toot/asynch/commands.py:107 | rstrip of a suffix ends where strip's right scan over the whole string ends |
| Text.StripIsRL | toot/asynch/commands.py:107 | strip equals lstrip followed by rstrip |
| Text.StripExact | toot/asynch/commands.py:107 | strip removes exactly the surrounding whitespace: strip(a + m + b) is m for whitespace a and b |
| Text.StripIdempotent | toot/asynch/commands.py:107 | stripping a stripped description changes nothing |
| Text.Join | toot/asynch/commands.py:115 | `"\n".join`: the parts in order with the separator between each two; its properties are `JoinEmpty`, `SplitJoin` and `JoinSplit` |
| Text.JoinEmpty | toot/asynch/commands.py:115 | joining with a non-empty separator is empty exactly when there are no parts or one empty part |
| Text.Split | toot/asynch/commands.py:115 | splitting at a character gives at least one piece and no piece holds the separator |
| Text.SplitJoin | toot/asynch/commands.py:115 | splitting a joined string at its one-character separator gives back the parts, in order, when no part holds the separator |
| Text.JoinSplit | toot/asynch/commands.py:115 | joining the pieces of a split with the separator gives the string back |

## Left out

- The `cli` group, the Click context settings and the `--debug`, `--color` and `--quiet` flags: configuration and logging setup with no decision logic.
- The `instance` command and `toot/async_api.py`: network calls and configuration loading whose behaviour lives in modules that are not part of this model.
- The upload stub's random id, its printing and the `print` of each file in the upload loop: the upload results are given as the `Console.uploads` sequence instead, and output is not modelled.
- `editor_input`, `multiline_input` and `print_out`: their definitions are not part of this model; the editor is an opaque function of the editor command and the text so far, the prompt an opaque string.
- The posting of the toot: the source leaves that call commented out, so the model ends with the resolved `Draft`.
- A run without `-l`: Click then calls `validate_language` with `None`, and `len(None)` at toot/asynch/commands.py:29 raises `TypeError`, so in the source every run without `-l` fails. That comes from Click's handling of a missing option; the model runs the callback only on a supplied string and passes an absent language on to the body (`InvokePost`, `LanguageCheckedFirst`).
- The value Click gives `-e` when `$EDITOR` is unset (line 61 then passes `flag_value=None`): the model takes the editor as an optional command string and does not cover what Click substitutes in that case.
- `sys.stdin.isatty()` is read twice by the source; the model assumes both reads agree.
