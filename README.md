# Batch exam upload — a Dafny model

batchexamupload.py is a small Streamlit tool. It uploads a directory of PDF
files, one per student, to a Canvas assignment. A file named `<user id>.pdf`
goes to that user's submission. For each file the tool asks Canvas for an
upload ticket (the *initiation* call), posts the bytes to the ticket's URL
(the *upload* call), and shows one message. A run always starts by parsing
the assignment link, and a run that is not cut short by an exception ends
with "All uploads processed.".

This project models that logic, with the network, the filesystem and the UI
given as inputs:

- `Strings` (strings.dfy): Python's `str.split` for one separator
  character, `str.endswith` and `str.replace(pattern, "")`, with their
  properties (split/join are inverses, the last segment is the longest
  suffix without a separator, how long the string is after `replace`,
  what `replace` keeps, when `replace` removes nothing).
- `Remote` (remote.dfy): `initiate_file_upload` and `upload_file`. Each
  takes the HTTP response and turns it into a value or a Python exception.
  The exceptions are a datatype: `CanvasException`, `KeyError`,
  `IndexError`, and `MalformedJson`, which stands for every failure to read
  a response body as a JSON object (see "## Left out").
- `Uploader` (uploader.dfy): `process_upload`. The link is parsed, the
  `.pdf` entries are picked out and the student id is derived. Each unit
  runs as the loop body does. `Batch` is the whole run as a function, and
  `ProcessUpload` is the loop itself, proved equal to `Batch`. The
  existence test and the two endpoints are an `Env` of functions. Every
  remote call made is recorded in the run's `Trace`, next to the messages
  shown and the exception that escaped, if any. `IsPdf` (line 51) and
  `StudentId` (line 53) are the filter and the id derivation, `Unit` is one
  pass of the loop body (lines 51-69) and `RunUnit` the same pass written
  as statements, `Steps` is the loop over a listing
  (lines 50-67), and `Strings.LastSegment` is `split('/')[-1]` (lines 36
  and 44); the `Unit*` and `Steps*` lemmas are about these.

The model follows the code as written, including four behaviours a reader
might not expect:

- The student id is the file name with every occurrence of ".pdf" found in
  one left-to-right pass removed, not the name without its extension. The
  id can still contain ".pdf": ".p.pdfdf" gives ".pdf".
- An empty student id (a file named ".pdf") is not rejected.
- Only `CanvasException` is caught per unit. A ticket without `upload_url`
  or `upload_params`, or a body that is not JSON, raises an exception that
  is not caught and ends the run.
- The course id and assignment id are the third-from-last and the last
  '/'-segment, not fixed positions from the start.

## Model

| member | source | states |
|---|---|---|
| Strings.Split | batchexamupload.py:42 | `split` never returns an empty list |
| Strings.SplitLength | batchexamupload.py:42-43 | there is one piece more than there are '/' in the link, so `parts[-3]` exists exactly when the link has at least two '/' |
| Strings.SplitPiecesFree | batchexamupload.py:42 | no piece contains the separator |
| Strings.SplitFree | batchexamupload.py:42 | a string without the separator splits into itself alone |
| Strings.SplitAround | batchexamupload.py:42 | splitting `a + sep + b` gives the pieces of `a` followed by those of `b` |
| Strings.JoinSplit | batchexamupload.py:42 | joining the pieces with '/' gives back the link: split loses nothing |
| Strings.SplitJoin | batchexamupload.py:42 | splitting a join of separator-free pieces gives back the pieces, so split and join are inverse |
| Strings.JoinAppend | batchexamupload.py:42 | joining two non-empty lists of pieces puts one separator between their joins |
| Strings.LastSegmentIsSuffix | batchexamupload.py:36 | `split('/')[-1]` has no '/', ends the string, and is the whole string or follows its last '/' |
| Strings.RemoveAll | batchexamupload.py:53 | `replace('.pdf', '')` shortens the name by 4 for each occurrence it removes |
| Strings.CountZeroIff | batchexamupload.py:53 | `replace` removes no occurrence exactly when the pattern never occurs (both directions) |
| Strings.RemoveAllNoOccurrence | batchexamupload.py:53 | a name without ".pdf" is left unchanged |
| Strings.RemoveAllSplice | batchexamupload.py:53 | for a pattern that cannot overlap itself, `replace` on `x + pattern + y`, with no occurrence in `x`, gives `x` followed by `replace` on `y`: each occurrence is cut out and everything else is kept in order |
| Strings.RemoveAllSuffix | batchexamupload.py:53 | for a pattern that cannot overlap itself, removing it from `x + pattern` gives `x` when `x` holds no occurrence |
| Remote.InitiateFileUpload | batchexamupload.py:21-24 | initiation raises `CanvasException("File upload initiation failed.")` exactly when the status is not 200; with status 200 it returns the decoded ticket, or raises a non-Canvas exception for a body that is not JSON |
| Remote.TicketFields | batchexamupload.py:59-60 | the ticket lookups succeed exactly when both `upload_url` and `upload_params` are present; otherwise a `KeyError` names the first missing key |
| Remote.UploadFile | batchexamupload.py:31-38 | upload raises `CanvasException("File upload failed.")` exactly when the status is not 200, 201 or 302; otherwise the file id comes from a non-empty `Location`, or else from the JSON `id`, and only a non-JSON body raises |
| Remote.LocationFileId | batchexamupload.py:34-36 | a file id taken from `Location` contains no '/', ends the header, and is the whole header or follows its last '/' |
| Remote.NoLocationFallsBackToJson | batchexamupload.py:34-38 | corollary of `UploadFile`: a missing or empty `Location` gives the JSON `id`, which may be None |
| Remote.RedirectExample | batchexamupload.py:34-36 | a response handed to `upload_file` with status 302 and `Location` https://x/files/555 (written as "https://x/files" + "/" + "555") gives file id "555" |
| Uploader.ParseLink | batchexamupload.py:42-44 | the link parses exactly when it has at least two '/', else `IndexError`; neither id contains '/' |
| Uploader.ParseLinkShape | batchexamupload.py:42-44 | any link `pre + C + "/" + M + "/" + A` (with `pre` empty or ending in '/', and no '/' in C, M, A) gives course C and assignment A; for example `https://h/courses/12/assignments/34` gives ("12", "34"), see `LinkExample` |
| Uploader.LinkExample | batchexamupload.py:42-44 | `https://h/courses/` + `12/assignments/34` parses to course "12" and assignment "34" |
| Uploader.ParseLinkDecomposes | batchexamupload.py:42-44 | conversely, every link that parses has that shape, with the parsed ids in the C and A places |
| Uploader.ShortLinkExample | batchexamupload.py:43 | `courses/12` has no third-from-last segment and raises `IndexError` |
| Uploader.StudentIdOfPdfName | batchexamupload.py:51-53 | `X.pdf`, where X holds no ".pdf", is selected and belongs to student X |
| Uploader.StudentIdSplice | batchexamupload.py:53 | the student id of `x + ".pdf" + y`, with no ".pdf" in `x`, is `x` followed by the student id of `y` |
| Uploader.StudentIdOnePass | batchexamupload.py:53 | ".p.pdfdf" gives ".pdf": removal is one left-to-right pass, so the id can contain ".pdf" |
| Uploader.StudentIdPlain | batchexamupload.py:53 | "1001.pdf" gives student "1001" |
| Uploader.StudentIdRepeated | batchexamupload.py:53 | "a.pdf.pdf" gives "a", because every occurrence is removed, not only the extension |
| Uploader.StudentIdEmpty | batchexamupload.py:53 | ".pdf" gives the empty id |
| Uploader.Selected | batchexamupload.py:50-51 | the entries worked on are exactly the listing entries ending in ".pdf" (case-sensitive) |
| Uploader.SelectedOne | batchexamupload.py:50-51 | a single entry is kept exactly when it ends in ".pdf" |
| Uploader.SelectedAppend | batchexamupload.py:50-51 | selecting from `a + b` selects from `a`, then from `b`: the filter keeps listing order |
| Uploader.RunUnit | batchexamupload.py:51-69 | one pass of the loop body, written as the source writes it, makes exactly the calls, shows exactly the messages and lets escape exactly the exception that `Unit` says |
| Uploader.ProcessUpload | batchexamupload.py:40-71 | the loop, which appends one message per unit and stops at an uncaught exception, shows, calls and raises exactly what `Batch` says |
| Uploader.StepsStopAt | batchexamupload.py:56-67 | once an exception escapes, later entries show and call nothing |
| Uploader.UnitReports | batchexamupload.py:51-69 | a non-PDF entry yields no message and no call; a unit that raises shows nothing; any other PDF unit shows exactly one message, about the student its name gives |
| Uploader.UnitCallOrder | batchexamupload.py:55-63 | no call for a non-PDF entry or a missing file; otherwise initiation comes first, and there is an upload call, for the ticket's URL and parameters, exactly when initiation returned a ticket with both fields |
| Uploader.UnitMissingFile | batchexamupload.py:55-69 | a listed file that no longer exists gives a not-found warning and no remote call |
| Uploader.UnitInitiationRejected | batchexamupload.py:56-67 | a non-200 initiation gives an error message with the initiation-failed reason, and nothing is uploaded |
| Uploader.UnitUploadRejected | batchexamupload.py:56-67 | an upload answered with a status other than 200, 201 or 302 gives an error message with the upload-failed reason, after both calls, and nothing escapes |
| Uploader.UnitEscapes | batchexamupload.py:56-67 | an exception escapes a unit exactly on a malformed initiation body, a ticket missing a field, or an accepted upload with neither `Location` nor a JSON body; it is never a `CanvasException` |
| Uploader.EmptyStudentIdNotRejected | batchexamupload.py:53-58 | a file named ".pdf" is initiated for user "" |
| Uploader.RedirectScenario | batchexamupload.py:53-64 | unit "1001.pdf" with ticket `https://x/y`, when the response handed to `upload_file` has status 302 and `Location` `https://x/files/555`, shows "uploaded for 1001, file id 555" after exactly the two calls |
| Uploader.StepsUncaughtIff | batchexamupload.py:50-67 | the loop finishes without an uncaught exception exactly when no entry lets one escape |
| Uploader.StepsCallsOnlyForPresentPdfs | batchexamupload.py:50-63 | every remote call is for a listing entry ending in ".pdf" whose file still exists |
| Uploader.StepsReports | batchexamupload.py:50-69 | with no uncaught exception, the loop shows one message per selected entry, in listing order, each the message that entry alone yields |
| Uploader.BatchCompletes | batchexamupload.py:50-71 | for N selected entries and no uncaught exception: exactly N unit messages in listing order, one per student, each independent of how the other units fared (a caught `CanvasException` does not stop later units), then exactly one "All uploads processed" |
| Uploader.StepsEscapeAt | batchexamupload.py:50-67 | when entry k is the first to let an exception escape, the loop ends with the messages of the entries before it and their calls followed by entry k's |
| Uploader.StepsNoClosingNotice | batchexamupload.py:50-69 | units that finish never show the "All uploads processed" notice |
| Uploader.BatchAborts | batchexamupload.py:50-71 | an exception escaping entry k ends the run: only the messages of the entries before k, no closing notice, and no remote call after entry k's |
| Uploader.BatchUncaughtIff | batchexamupload.py:42-71 | the run ends with an uncaught exception exactly when the link has fewer than two '/' or some entry lets a non-Canvas exception escape |

## Left out

- The HTTP requests (`requests.post`, lines 15 and 29), the hard-coded base URL, the request headers and JSON decoding. Each response is an input, given as a function of the request in `Env`. The bearer token is recorded in the initiation request but not used otherwise.
- Transport failures of `requests.post`, such as a refused connection or a timeout. They are not `CanvasException`, so they would end the run; the model has each call return a response.
- Filesystem access: `os.listdir`, `os.path.join`, `os.path.exists`, `os.path.getsize` and `open`. The listing is a given sequence of names and existence is a given predicate. The model does not cover a failing `listdir`, a file that disappears between the existence test and `getsize`/`open`, a directory whose name ends in ".pdf", or the `size` form field.
- The `Canvas` client built at line 47: it is never used.
- The Streamlit page and form (lines 73-84) and the display calls. Messages are a datatype (`Uploaded`, `Failed`, `NotFound`, `AllProcessed`), not formatted text. A caught exception's reason is the message it was raised with, which is how canvasapi's `CanvasException` prints. canvasapi is not part of this model.
- Remote.InitiateFileUpload: `MalformedJson` stands for three Python exceptions: `JSONDecodeError` from `.json()` (lines 24 and 38), `TypeError` from subscripting a JSON value that is not an object (lines 59-60) and `AttributeError` from `.get` on one (line 38). An initiation body that is valid JSON but not an object is modelled as raising in the initiation step, where the source raises only at the lookup on line 59. The run is the same either way: one initiation call, no message, and a non-Canvas exception that ends the run.
- Redirect following. `requests.post` on line 29 follows redirects by default, so a 301, 302, 303, 307 or 308 reply with a `Location` header is re-sent and `upload_file` receives the final response. `Env.upload` is that final response. The model accepts any response, including a 302 with a `Location`, which `requests` would normally have followed; the 302 case of lines 31 and 35-36 is modelled as the code handles it, not as a reply the server is expected to send.
- Remote.TicketFields: `None` in a `Ticket` means the key is missing, so a key that is present with the JSON value `null` is not represented. For `upload_params: null` the source's lookup on line 60 succeeds and the upload goes ahead with no form data, whereas the model's nearest encoding raises a `KeyError`.
- The JSON `id` of an upload response is kept in its printed form, as a string, or `None` when the key is missing.
- Filename suffixes, fetching existing attachments, submitting on the student's behalf and thread pools do not appear in batchexamupload.py and are not modelled.
