# tiktok-link: the username-extraction core, in Dafny

`main.py` is a Reddit bot. It watches new video posts, reads the original
TikTok poster's handle off the video, and replies with a link to that
account. This project models the decision and string logic of the bot, with
every download, decoder, OCR call and HTTP request given as an input:

- **Username normaliser** (`clean_text`, module `Normalizer`). It takes the
  first OCR string that starts with `@` or with `TikTok @`, drops the
  `TikTok ` label, folds it to lower case and turns spaces into `_`.
- **Title handles** (`get_usernames_from_title`, module `Titles`). These are
  the words of the post title, as `str.split()` cuts them, that start with `@`.
  `str.split()` itself is modelled in module `Text`, and proved to undo
  `" ".join`.
- **Existence check** (`tiktok_user_exists`, module `Verifier`). Status 200
  means the account exists and 404 that it does not. Any other status is an
  error.
- **Frames** (`last_frame`, `preprocess_first_frame`, module `Frames`). The
  last frame is the probed packet count minus one. The first frame is cropped
  to its left third and, of that, its top two thirds.
- **Two-pass extraction** (`get_username_from_video`, module `Orchestrator`).
  The end card (last frame) is read first. A verified handle from it is
  returned as `sure`. Otherwise the floating watermark in the cropped first
  frame is read and looked up. Each lookup may abort the extraction.
- **Reply decisions** (`main`, module `Reply`). These cover the `v.redd.it`
  filter, the scan for an earlier bot comment, the list of title links, and
  the choice of reply template.

The outside world is one value of type `Orchestrator.Media`. It holds:

- whether the download succeeded;
- the packet count the probe printed;
- the frame decoder for a given index;
- the first-frame decoder;
- the OCR function;
- the HTTP status answered for each URL.

Four behaviours of the code are easy to miss:

- The last-frame index is the packet count minus one, computed without
  checking that the count is positive.
- A token may be just `@`. The input `@` normalises to `@`.
- In the watermark pass, the lookup is made even when no handle was read. The
  f-string renders `None`, so the bot requests `https://www.tiktok.com/None`.
- Any exception during extraction makes `main` skip the post, so a reply that
  would have used only the title handles is lost too (see Findings).

## Model

| member | source | states |
|---|---|---|
| Text.StartsWith | main.py:179 | `startswith` holds if and only if the prefix is no longer than the string and agrees with it character by character |
| Text.Lower | main.py:181 | `lower()` keeps the length and folds each character; no ASCII capital is left |
| Text.ReplaceSpaces | main.py:181 | `replace(" ", "_")` keeps the length, turns each space into `_` and keeps every other character |
| Text.Words | main.py:255 | `split()` yields no empty word; it is the maximal runs of non-whitespace characters in order, which `WordsNoneIff`, `WordsAreWords`, `WordsSplitAtSpace` and `WordsJoin` pin down |
| Text.WordsNoneIff | main.py:255 | `split()` yields no word if and only if the string is whitespace only |
| Text.WordsAreWords | main.py:255 | every word `split()` yields is non-empty and holds no whitespace character |
| Text.WordsJoin | main.py:255 | `split()` recovers any list of words from `" ".join` of it (split is the inverse of joining words) |
| Text.WordsSplitAtSpace | main.py:255 | `split()` of two strings joined by one whitespace character is the words of the first followed by the words of the second |
| Text.WordsExample | main.py:255 | `"a\t\n b  c "` splits into `["a", "b", "c"]`: runs of mixed whitespace separate words and leading or trailing whitespace yields no empty word |
| Normalizer.Canonical | main.py:181 | `.lower().replace(" ", "_")` keeps the length, folds each character (space to `_`, capital to lower case), and leaves no space and no ASCII capital |
| Normalizer.Normalize | main.py:179-184 | a candidate becomes a token (leading `@`, no space, no ASCII capital); character by character it is the string, or the string without its 7-character `TikTok ` label, with each space made `_` and each letter lower-cased |
| Normalizer.Username | main.py:177-184 | a returned username is always a well-formed token |
| Normalizer.CleanText | main.py:177-184 | the loop with its two early returns and implicit `None` returns exactly `Username` of the OCR strings |
| Normalizer.UsernameIsFirstCandidate | main.py:178-184 | the result is the token of the first string that starts with `@` or `TikTok @`; earlier strings are skipped |
| Normalizer.UsernameNoneIff | main.py:177-184 | `None` is returned if and only if no string is a candidate |
| Normalizer.UsernameIgnoresLater | main.py:178-184 | once a candidate is present, strings appended after it never change the result |
| Normalizer.NormalizeHandleFolds | main.py:179-181 | a string starting with `@` normalises to the string of its characters, each folded (space to `_`, capital to lower case) |
| Normalizer.NormalizeToken | main.py:177-184 | a well-formed token is a candidate and normalises to itself, so normalising a returned username again changes nothing |
| Normalizer.NormalizeHandleExample | main.py:179-181 | `@User_Name` normalises to `@user_name` |
| Normalizer.NormalizeWatermarkExample | main.py:182-184 | `TikTok @User Name` normalises to `@user_name` |
| Normalizer.NormalizeCanonicalExample | main.py:179-181 | `@jane.doe99` is already canonical and normalises to itself |
| Normalizer.UsernameSkipExample | main.py:177-184 | `["random text", "@jane.doe99"]` gives `@jane.doe99`: the non-candidate is skipped |
| Normalizer.UsernameNoneExample | main.py:177-184 | `["no username here"]` gives `None` |
| Titles.Handles | main.py:253-258 | the kept words all start with `@` and are no more than the words |
| Titles.UsernamesFromTitle | main.py:252-258 | the append loop returns the `@` words of `title.split()`, each one a whole whitespace-free word |
| Titles.HandlesAppend | main.py:255-257 | filtering distributes over concatenation, so handles keep the title's order |
| Titles.HandlesCount | main.py:255-257 | each `@` word occurs as often as in the title (duplicates kept); no other word occurs |
| Titles.HandlesAreWords | main.py:252-258 | every returned handle is a non-empty word with no whitespace |
| Orchestrator.LastFrame | main.py:98-129 | no packet count makes the probe fail; with a count `n`, an image is returned exactly when frame `n - 1` decodes, and it is that frame; otherwise there is no image data |
| Frames.PreprocessLastFrame | main.py:159-160 | the last frame is returned unchanged: same size and the same pixel at every position |
| Frames.LastFrameIndex | main.py:112-120 | the frame asked for is the count minus one: below the count, never the count itself, and a valid index when the count is positive |
| Frames.FirstFrameBox | main.py:134 | the crop box starts at the origin and lies within the frame; its right edge is a third of the width and its lower edge twice a third of the height, each third rounded down |
| Frames.PreprocessFirstFrame | main.py:132-136 | the cropped image has the box's size, fits in the frame, keeps the frame's pixels at the same positions inside the box, and holds nothing of the frame outside it |
| Verifier.ClassifyStatus | main.py:212-217 | 200 gives Exists and 404 NotExists, each if and only if; every other status is an error carrying that status, never NotExists |
| Verifier.ProfileUrl | main.py:207 | the profile URL is `https://www.tiktok.com/` followed by the handle, and nothing else |
| Verifier.Interpolate | main.py:207 | the f-string, reached from main.py:244 with the watermark result, renders a handle as itself and `None` as the text `None`, which does not start with `@` |
| Verifier.UserExists | main.py:200-217 | the lookup answers Exists if and only if the profile URL has status 200, NotExists if and only if it has 404, and otherwise an error carrying that status |
| Orchestrator.ExtractUsername | main.py:220-249 | a failed download aborts; a `sure` result holds the end-card handle; any other successful result needed a first frame |
| Orchestrator.GetUsernameFromVideo | main.py:220-249 | the step-by-step extraction returns or raises exactly what the two-pass state machine `ExtractUsername` gives |
| Orchestrator.SureOnlyFromEndCard | main.py:231-236 | a `sure` result carries a handle read off the end card that the lookup confirmed |
| Orchestrator.VerifiedEndCardSkipsFirstFrame | main.py:236-249 | a confirmed end-card handle is returned as `(t1, True)`, and no first frame can change the answer |
| Orchestrator.FallbackOutcome | main.py:236-247 | without a confirmed end-card handle, the answer is `(t2, False)` when the watermark handle is confirmed, `(None, False)` on 404, and the status error otherwise |
| Orchestrator.ReturnedUsernameVerified | main.py:236-247 | any returned handle passed the lookup and is a well-formed token |
| Orchestrator.EndCardStatusErrorPropagates | main.py:217 | an unexpected status on the end-card lookup aborts with that status; it never falls through to the first frame |
| Orchestrator.EndCardDecodeFailureAborts | main.py:231-232 | a failed probe or end-card decode aborts the extraction with that failure, and the first frame is never consulted |
| Orchestrator.WatermarkDecodeFailureAborts | main.py:236-240 | on the fallback path (no end-card handle, or one the lookup did not find), a first frame that cannot be decoded aborts the extraction |
| Orchestrator.NoneIsLookedUp | main.py:236-244 | whenever the fallback is reached (no end-card handle, or one answered 404) and the watermark yields no handle, the result is decided by the status of `https://www.tiktok.com/None`, a URL that is no token's profile |
| GuardedOrchestrator.GuardedEmptyWatermark | main.py:242-247 | with the guard, no watermark handle gives `(None, False)` whatever any server answers |
| GuardedOrchestrator.GuardedAgreesOtherwise | main.py:242-247 | the guard changes nothing unless the watermark pass yields no handle |
| GuardedOrchestrator.NoneLookupRaises | main.py:242-247 | a video with no readable handle, where the host answers 429: the code as written raises, the guarded pass gives `(None, False)` |
| Reply.BotCommentScan | main.py:274-281 | a skip means a comment by `tiktok-link` is present; a crash means an authorless comment is present; no skip and no crash means neither is present |
| Reply.FindBotComment | main.py:274-279 | the skip-and-break loop over comment authors returns exactly the as-written scan |
| Reply.BotCommentScanFirst | main.py:275-279 | the scan is decided by the first comment by the bot or without an author: skip for the bot's, a crash for an authorless one |
| Reply.BotCommentScanNone | main.py:275-281 | with no such comment the post is not skipped |
| Reply.DeletedCommentCrashes | main.py:276 | an authorless comment ahead of the bot's own comment raises |
| Reply.HasBotComment | main.py:274-279 | the guarded scan never raises, and skips if and only if some comment is by `tiktok-link` |
| Reply.TitleLinks | main.py:287-291 | the accumulated `title_usernames_md` is empty if and only if there are no handles, and otherwise begins with a link's `[` |
| Reply.TitleLinksSnoc | main.py:288-291 | one more handle appends its entry, `[u](https://www.tiktok.com/u` and two newlines, at the end |
| Reply.TitleLinksAppend | main.py:288-291 | the entries follow the handles' order: the text for `a + b` is the text for `a` followed by the text for `b` |
| Reply.TitleLinksCons | main.py:288-291 | the first handle's entry comes first |
| Reply.TitleMarkdown | main.py:287-291 | the accumulation loop produces one entry per title handle, in order, as written |
| Reply.TitleLinksNeverClose | main.py:289-291 | for handles without parentheses, the list opens one `(` per handle and closes none |
| Reply.ClosedTitleLinksBalanced | main.py:289-291 | with the `)` restored, each entry opens and closes exactly one parenthesis |
| Reply.SelectTemplate | main.py:300-314 | exactly one template: TitleAndVideo or Title whenever the title has handles, Sure or Unsure only with no title handles and a username, NoReply only with neither |
| Reply.Decide | main.py:293-314 | an extraction exception means no reply; with title handles a title template is chosen; a Sure or Unsure reply needs a successful extraction with a username and matches its `sure` flag |
| Reply.TitleTemplateIgnoresSure | main.py:300-305 | with title handles, `sure` never changes the template, which is a title template |
| Reply.HandleSubmission | main.py:269-314 | non-`v.redd.it` posts get no reply; a crash of the comment scan propagates; an earlier bot comment means no reply; otherwise the template follows from the title handles and the extraction, and an extraction exception means no reply |
| Reply.NoneLookupDropsTitleReply | main.py:244-314 | a post whose title names a handle, whose video shows none, and whose host answers 429 to the lookup of `None` gets no reply as written, and the Title reply with the guard |

## Left out

- Reddit access through praw is not modelled: the submission stream, comment iteration, `submission.reply` and printing (main.py:261-267, main.py:316-317). A post is given as a `Submission` value.
- The yt-dlp, ffprobe and ffmpeg processes and PNG decoding are not modelled (main.py:67-129). They are fields of `Media`: a download flag, an optional packet count, and two frame decoders that may yield no image.
- The easyocr model and its configuration, including the allowlist that lacks the digit `8`, are not modelled (main.py:187-197). OCR is a function from image to strings.
- The HTTP GET and its headers are not modelled (main.py:206-211). Only the status mapping is; the network is a function from URL to status. A request that fails without any status, such as a connection error raised by `requests.get`, is stood in for by a status other than 200 and 404, which takes the same path to the `except` in `main` (main.py:295-298). A request that never returns, possible because no timeout is set, is not modelled.
- Orchestrator.LastFrame: with a packet count of 0 or less the model asks the frame decoder for a negative index, and the decoder may still supply an image there. The code's `ffmpeg` then selects no frame and `Image.open` raises (main.py:120, main.py:127).
- Orchestrator.ExtractUsername: the network answers the same status for the same URL within one extraction; two calls with one URL cannot get different answers.
- `img.show()` is not modelled, because it is a display side effect (main.py:233, main.py:241).
- `np_multi_and` and the commented-out HSV masks are not modelled, because no code path uses them (main.py:59-64, main.py:138-156, main.py:162-174).
- Frames.FirstFrameBox: `int(w / 3)` is float division truncated. It is modelled as floor division on non-negative sizes, which agrees for every size a frame can have.
- Text.Lower: folds ASCII letters only. Python's `str.lower()` also folds other scripts and can change a string's length.
- The literal template texts are not modelled (main.py:10-56). Templates are tags; only the title-link format is modelled.
- Reply.HandleSubmission: the title-link text is computed but not placed in a reply, since templates are tags.

## Findings

| source | as written | input that shows it | evidently intended | confidence | as-written member | corrected member |
|---|---|---|---|---|---|---|
| main.py:289-291 | each title entry is `[u](https://www.tiktok.com/u` followed by two newlines, with no `)` | title `look @abc`: the list is `[@abc](https://www.tiktok.com/@abc` and two newlines, an unclosed link | `[u](https://www.tiktok.com/u)` like the other templates (main.py:13) | not executed; high | Reply.TitleLinksNeverClose | Reply.ClosedTitleLinksBalanced |
| main.py:242-244 | the watermark lookup runs even when `clean_text` returned `None`, requesting `https://www.tiktok.com/None` | no handle in either frame, host answers 429, title `@someone`: the exception makes `main` skip the post, so the title reply is lost | a `text is not None` guard, as on the end-card pass (main.py:236) | not executed; medium | GuardedOrchestrator.NoneLookupRaises | GuardedOrchestrator.GuardedEmptyWatermark |
| main.py:275-276 | `comment.author.name` on a comment whose author was deleted (`author` is `None`) raises outside any `try` | comments by a deleted account and then by `tiktok-link`: the bot stops | skip comments without an author | not executed; medium | Reply.DeletedCommentCrashes | Reply.HasBotComment |

The rest of the model follows the code as written. `Reply.HandleSubmission`
uses the as-written scan and extraction.
