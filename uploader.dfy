/**
 `process_upload` of batchexamupload.py: parse the assignment link, then walk
 the directory listing, and for every `.pdf` entry derive the student id,
 check that the file is still there, initiate the upload, upload the bytes,
 and report one message per unit. A `CanvasException` is caught per unit;
 any other exception ends the run. "All uploads processed." closes a run
 that was not ended early.

 The directory, the existence test and the two HTTP endpoints are given as
 an `Env`; every remote call made is recorded, so that which calls are made
 can be stated.
 */
module Uploader {
  import opened Wrappers
  import opened Strings
  import opened Remote

  /** The course and assignment ids taken from the assignment link. */
  datatype LinkIds = LinkIds(courseId: string, assignmentId: string)

  /** What the initiation POST is about: its URL path ids, the form field
      `name`, and the bearer token. */
  datatype InitRequest = InitRequest(courseId: string, assignmentId: string, userId: string,
                                     fileName: string, apiKey: string)

  /** The upload POST: the ticket's URL and parameters, and the file sent. */
  datatype UploadRequest = UploadRequest(url: string, params: map<string, string>, fileName: string)

  /** One remote call, in the order made. */
  datatype Call = Initiate(init: InitRequest) | Upload(upload: UploadRequest)

  /** The file a remote call sends. */
  function FileOf(c: Call): string
  {
    match c
    case Initiate(r) => r.fileName
    case Upload(r) => r.fileName
  }

  /** The messages shown: `st.success`, `st.error`, `st.warning` for a unit,
      and the closing `st.info`. */
  datatype Message =
    | Uploaded(student: string, fileId: Option<string>)
    | Failed(student: string, reason: string)
    | NotFound(student: string)
    | AllProcessed

  /** The world the uploader talks to: whether a listed file still exists,
      and what the service answers to each request. */
  datatype Env = Env(present: string -> bool,
                     initiate: InitRequest -> InitResponse,
                     upload: UploadRequest -> UploadResponse)

  /** What a stretch of the run shows and calls, and the exception that
      escaped it, if one did. */
  datatype Trace = Trace(messages: seq<Message>, calls: seq<Call>, uncaught: Option<Exception>)

  const Empty: Trace := Trace([], [], None)

  /** Run `b` after `a`, unless an exception escaped `a`. */
  function Then(a: Trace, b: Trace): Trace
  {
    if a.uncaught.Some? then a
    else Trace(a.messages + b.messages, a.calls + b.calls, b.uncaught)
  }

  // ---------------------------------------------------------------------
  // link and file names

  /** The course id is the third-from-last '/'-piece of the link and the
      assignment id the last; a link with fewer than three pieces has no
      third-from-last one and raises `IndexError`. */
  function ParseLink(link: string): (r: Outcome<LinkIds>)
    ensures r.Returned? <==> multiset(link)['/'] >= 2
    ensures r.Raised? ==> r.exception == IndexError
    ensures r.Returned? ==> '/' !in r.value.courseId && '/' !in r.value.assignmentId
  {
    var parts := Split(link, '/');
    SplitLength(link, '/');
    SplitPiecesFree(link, '/');
    if |parts| < 3 then Raised(IndexError)
    else Returned(LinkIds(parts[|parts| - 3], parts[|parts| - 1]))
  }

  /** The ids are read off the end of the link: whatever precedes the
      third-from-last segment, the course id, any middle segment and the
      assignment id give exactly that pair. */
  lemma ParseLinkShape(pre: string, course: string, mid: string, assignment: string)
    requires pre == [] || pre[|pre| - 1] == '/'
    requires '/' !in course && '/' !in mid && '/' !in assignment
    ensures ParseLink(pre + course + "/" + mid + "/" + assignment) == Returned(LinkIds(course, assignment))
  {
    var link := pre + course + "/" + mid + "/" + assignment;
    var tail := course + ['/'] + (mid + ['/'] + assignment);
    SplitThree(course, mid, assignment);
    if pre == [] {
      assert link == tail;
      ParseLinkOfParts(link, [course, mid, assignment]);
    } else {
      var front := pre[..|pre| - 1];
      assert link == front + ['/'] + tail;
      SplitAround(front, tail, '/');
      ParseLinkOfParts(link, Split(front, '/') + [course, mid, assignment]);
    }
  }

  /** Three separator-free pieces joined by '/' split back into them. */
  lemma SplitThree(a: string, b: string, c: string)
    requires '/' !in a && '/' !in b && '/' !in c
    ensures Split(a + ['/'] + (b + ['/'] + c), '/') == [a, b, c]
  {
    SplitFree(a, '/');
    SplitFree(b, '/');
    SplitFree(c, '/');
    SplitAround(b, c, '/');
    SplitAround(a, b + ['/'] + c, '/');
  }

  /** `ParseLink` reads the third-from-last and last of the pieces. */
  lemma ParseLinkOfParts(link: string, parts: seq<string>)
    requires Split(link, '/') == parts && |parts| >= 3
    ensures ParseLink(link) == Returned(LinkIds(parts[|parts| - 3], parts[|parts| - 1]))
  {
  }

  /** Conversely, every link that parses has that shape. */
  lemma ParseLinkDecomposes(link: string) returns (pre: string, mid: string)
    requires ParseLink(link).Returned?
    ensures pre == [] || pre[|pre| - 1] == '/'
    ensures '/' !in mid
    ensures link == pre + ParseLink(link).value.courseId + "/" + mid + "/" + ParseLink(link).value.assignmentId
  {
    var parts := Split(link, '/');
    var n := |parts|;
    ParseLinkOfParts(link, parts);
    SplitPiecesFree(link, '/');
    JoinSplit(link, '/');
    pre := JoinLastThree(parts);
    mid := parts[n - 2];
  }

  /** A join of at least three pieces, with its last three pieces written
      out; returns what comes before them. */
  lemma JoinLastThree(parts: seq<string>) returns (pre: string)
    requires |parts| >= 3
    ensures pre == [] || pre[|pre| - 1] == '/'
    ensures Join(parts, '/') == pre + parts[|parts| - 3] + "/" + parts[|parts| - 2] + "/" + parts[|parts| - 1]
  {
    var n := |parts|;
    var last3 := parts[n - 3..];
    assert last3 == [parts[n - 3], parts[n - 2], parts[n - 1]];
    JoinThree(parts[n - 3], parts[n - 2], parts[n - 1]);
    var tail := parts[n - 3] + "/" + parts[n - 2] + "/" + parts[n - 1];
    if n == 3 {
      pre := [];
      assert parts == last3;
    } else {
      var first := parts[..n - 3];
      JoinAppend(first, last3, '/');
      assert first + last3 == parts;
      pre := Join(first, '/') + ['/'];
      assert Join(parts, '/') == Join(first, '/') + ['/'] + tail;
    }
    assert Join(parts, '/') == pre + tail;
  }

  /** Three pieces joined by '/'. */
  lemma JoinThree(a: string, b: string, c: string)
    ensures Join([a, b, c], '/') == a + "/" + b + "/" + c
  {
    assert [a, b, c][1..] == [b, c];
    assert [b, c][1..] == [c];
    assert Join([c], '/') == c;
    assert Join([b, c], '/') == b + ['/'] + c;
  }

  /** The link of the usage example gives course 12 and assignment 34. */
  lemma LinkExample(pre: string, course: string, mid: string, assignment: string)
    requires pre == "https://h/courses/" && course == "12" && mid == "assignments" && assignment == "34"
    ensures ParseLink(pre + course + "/" + mid + "/" + assignment) == Returned(LinkIds("12", "34"))
  {
    assert pre[|pre| - 1] == '/';
    assert '/' !in course && '/' !in mid && '/' !in assignment;
    ParseLinkShape(pre, course, mid, assignment);
  }

  /** A link with a single '/' has no third-from-last segment. */
  lemma ShortLinkExample()
    ensures ParseLink("courses/12") == Raised(IndexError)
  {
    var link := "courses" + ['/'] + "12";
    SplitAround("courses", "12", '/');
    SplitFree("courses", '/');
    SplitFree("12", '/');
    assert link == "courses/12";
  }

  /** `file_name.endswith('.pdf')`. */
  predicate IsPdf(name: string)
  {
    EndsWith(name, ".pdf")
  }

  /** `file_name.replace('.pdf', '')`. */
  function StudentId(name: string): string
  {
    RemoveAll(name, ".pdf")
  }

  /** ".pdf" cannot overlap itself. */
  lemma PdfBorderless()
    ensures Borderless(".pdf")
  {
    forall j | 0 < j < 4 ensures ".pdf"[j..] != ".pdf"[..4 - j] {
      assert ".pdf"[j..][0] != ".pdf"[..4 - j][0];
    }
  }

  /** A file named `X.pdf`, where `X` holds no ".pdf", belongs to student `X`. */
  lemma StudentIdOfPdfName(x: string)
    requires NoOccurrence(x, ".pdf")
    ensures IsPdf(x + ".pdf")
    ensures StudentId(x + ".pdf") == x
  {
    PdfBorderless();
    RemoveAllSuffix(x, ".pdf");
    assert (x + ".pdf")[|x|..] == ".pdf";
  }

  /** Everything up to the first ".pdf" is kept as it is and the rest of the
      name is treated the same way. */
  lemma StudentIdSplice(x: string, y: string)
    requires NoOccurrence(x, ".pdf")
    ensures StudentId(x + ".pdf" + y) == x + StudentId(y)
  {
    PdfBorderless();
    RemoveAllSplice(x, ".pdf", y);
  }

  /** `replace` makes a single left-to-right pass: removing the ".pdf" in
      the middle of ".p.pdfdf" leaves a new ".pdf" in the student id. */
  lemma StudentIdOnePass(x: string, y: string)
    requires x == ".p" && y == "df"
    ensures StudentId(x + ".pdf" + y) == ".pdf"
  {
    assert forall i: nat | i <= |x| :: !OccursAt(x, ".pdf", i);
    StudentIdSplice(x, y);
  }

  /** An ordinary name: "1001.pdf" belongs to student "1001". */
  lemma StudentIdPlain()
    ensures StudentId("1001.pdf") == "1001"
  {
    assert "1001.pdf" == "1001" + ".pdf";
    forall i: nat | i <= 4 ensures !OccursAt("1001", ".pdf", i) {
      if i == 0 { assert "1001"[0] != '.'; }
    }
    StudentIdOfPdfName("1001");
  }

  /** Every occurrence is removed, not only the extension. */
  lemma StudentIdRepeated()
    ensures StudentId("a.pdf.pdf") == "a"
  {
    var s := "a.pdf.pdf";
    assert s[..4] != ".pdf" by { assert s[0] != '.'; }
    assert s[1..] == ".pdf" + ".pdf";
    assert RemoveAll(".pdf" + ".pdf", ".pdf") == RemoveAll(".pdf", ".pdf") by {
      assert (".pdf" + ".pdf")[..4] == ".pdf" && (".pdf" + ".pdf")[4..] == ".pdf";
    }
    assert StudentId(s) == ['a'] + RemoveAll(".pdf", ".pdf");
    StudentIdEmpty();
  }

  /** A file named ".pdf" has the empty student id. */
  lemma StudentIdEmpty()
    ensures StudentId(".pdf") == ""
  {
    assert ".pdf" == "" + ".pdf";
    StudentIdOfPdfName("");
  }

  /** The listing entries the loop works on, in listing order. */
  function Selected(names: seq<string>): (r: seq<string>)
    ensures |r| <= |names|
    ensures forall x :: x in r <==> x in names && IsPdf(x)
  {
    if names == [] then []
    else
      var init := names[..|names| - 1];
      var last := names[|names| - 1];
      assert names == init + [last];
      Selected(init) + (if IsPdf(last) then [last] else [])
  }

  /** A single entry is kept exactly when it is a PDF. */
  lemma SelectedOne(x: string)
    ensures Selected([x]) == if IsPdf(x) then [x] else []
  {
    assert [x][..0] == [];
  }

  /** Selection from two stretches of the listing is selection from the
      first followed by selection from the second: the filter keeps order. */
  lemma {:induction false} SelectedAppend(a: seq<string>, b: seq<string>)
    ensures Selected(a + b) == Selected(a) + Selected(b)
    decreases |b|
  {
    if b == [] {
      assert a + b == a;
    } else {
      var init, last := b[..|b| - 1], b[|b| - 1];
      var keep := if IsPdf(last) then [last] else [];
      SelectedAppend(a, init);
      assert (a + b)[..|a + b| - 1] == a + init;
      assert (a + b)[|a + b| - 1] == last;
      assert Selected(a + b) == Selected(a + init) + keep;
      assert Selected(b) == Selected(init) + keep;
    }
  }

  // ---------------------------------------------------------------------
  // one unit and the whole run

  /** The `except CanvasException` clause: a caught exception becomes an
      error message; any other escapes. */
  function Catch(student: string, calls: seq<Call>, e: Exception): Trace
  {
    if e.CanvasException? then Trace([Failed(student, e.message)], calls, None)
    else Trace([], calls, Some(e))
  }

  /** The body of the `for` loop for one listing entry. */
  function Unit(ids: LinkIds, apiKey: string, env: Env, name: string): Trace
  {
    if !IsPdf(name) then Empty
    else
      var student := StudentId(name);
      if !env.present(name) then Trace([NotFound(student)], [], None)
      else
        var request := InitRequest(ids.courseId, ids.assignmentId, student, name, apiKey);
        match InitiateFileUpload(env.initiate(request))
        case Raised(e) => Catch(student, [Initiate(request)], e)
        case Returned(ticket) =>
          match TicketFields(ticket)
          case Raised(e) => Catch(student, [Initiate(request)], e)
          case Returned((url, params)) =>
            var upload := UploadRequest(url, params, name);
            var calls := [Initiate(request), Upload(upload)];
            match UploadFile(env.upload(upload))
            case Raised(e) => Catch(student, calls, e)
            case Returned(fileId) => Trace([Uploaded(student, fileId)], calls, None)
  }

  /** The loop over the listing, entry by entry, stopping at the first
      exception that escapes a unit. */
  function Steps(ids: LinkIds, apiKey: string, env: Env, names: seq<string>): Trace
  {
    if names == [] then Empty
    else Then(Steps(ids, apiKey, env, names[..|names| - 1]), Unit(ids, apiKey, env, names[|names| - 1]))
  }

  /** `process_upload(api_key, assignment_link, pdf_directory)` over the
      listing of `pdf_directory`. */
  function Batch(apiKey: string, link: string, listing: seq<string>, env: Env): Trace
  {
    match ParseLink(link)
    case Raised(e) => Trace([], [], Some(e))
    case Returned(ids) =>
      var t := Steps(ids, apiKey, env, listing);
      if t.uncaught.Some? then t
      else Trace(t.messages + [AllProcessed], t.calls, None)
  }

  /** One pass of the loop body as the source writes it: the `try` block
      appends to the calls and messages as it goes, and the `except` clause
      turns a `CanvasException` into an error message. */
  method RunUnit(ids: LinkIds, apiKey: string, env: Env, name: string)
    returns (messages: seq<Message>, calls: seq<Call>, uncaught: Option<Exception>)
    ensures Trace(messages, calls, uncaught) == Unit(ids, apiKey, env, name)
  {
    messages, calls, uncaught := [], [], None;
    if IsPdf(name) {
      var student := StudentId(name);
      if env.present(name) {
        var failure: Option<Exception> := None;
        var request := InitRequest(ids.courseId, ids.assignmentId, student, name, apiKey);
        calls := calls + [Initiate(request)];
        var initiated := InitiateFileUpload(env.initiate(request));
        if initiated.Raised? {
          failure := Some(initiated.exception);
        } else {
          var fields := TicketFields(initiated.value);
          if fields.Raised? {
            failure := Some(fields.exception);
          } else {
            var upload := UploadRequest(fields.value.0, fields.value.1, name);
            calls := calls + [Upload(upload)];
            var uploaded := UploadFile(env.upload(upload));
            if uploaded.Raised? {
              failure := Some(uploaded.exception);
            } else {
              messages := messages + [Uploaded(student, uploaded.value)];
            }
          }
        }
        if failure.Some? {
          if failure.value.CanvasException? {
            messages := messages + [Failed(student, failure.value.message)];
          } else {
            uncaught := failure;
          }
        }
      } else {
        messages := messages + [NotFound(student)];
      }
    }
  }

  /** The uploader as the source writes it: a loop that appends to the
      messages shown and returns early when an exception escapes a unit. */
  method ProcessUpload(apiKey: string, link: string, listing: seq<string>, env: Env)
    returns (messages: seq<Message>, calls: seq<Call>, uncaught: Option<Exception>)
    ensures Trace(messages, calls, uncaught) == Batch(apiKey, link, listing, env)
  {
    var parsed := ParseLink(link);
    if parsed.Raised? {
      return [], [], Some(parsed.exception);
    }
    var ids := parsed.value;
    messages, calls, uncaught := [], [], None;
    var i := 0;
    while i < |listing|
      invariant 0 <= i <= |listing|
      invariant Trace(messages, calls, uncaught) == Steps(ids, apiKey, env, listing[..i])
      invariant uncaught.None?
    {
      assert listing[..i + 1][..i] == listing[..i];
      var unitMessages, unitCalls, escaped := RunUnit(ids, apiKey, env, listing[i]);
      messages, calls := messages + unitMessages, calls + unitCalls;
      if escaped.Some? {
        uncaught := escaped;
        StepsStopAt(ids, apiKey, env, listing, i + 1);
        return;
      }
      i := i + 1;
    }
    assert listing[..i] == listing;
    messages := messages + [AllProcessed];
  }

  // ---------------------------------------------------------------------
  // properties of the run

  /** Once an exception has escaped, later entries change nothing. */
  lemma {:induction false} StepsStopAt(ids: LinkIds, apiKey: string, env: Env, names: seq<string>, k: nat)
    requires k <= |names|
    requires Steps(ids, apiKey, env, names[..k]).uncaught.Some?
    ensures Steps(ids, apiKey, env, names) == Steps(ids, apiKey, env, names[..k])
    decreases |names| - k
  {
    if k < |names| {
      var init := names[..|names| - 1];
      assert init[..k] == names[..k];
      StepsStopAt(ids, apiKey, env, init, k);
    } else {
      assert names[..k] == names;
    }
  }

  /** What one entry shows: nothing for a non-PDF entry or when an exception
      escapes, otherwise exactly one message about the student it names. */
  lemma UnitReports(ids: LinkIds, apiKey: string, env: Env, name: string)
    ensures !IsPdf(name) ==> Unit(ids, apiKey, env, name) == Empty
    ensures Unit(ids, apiKey, env, name).uncaught.Some? ==> Unit(ids, apiKey, env, name).messages == []
    ensures IsPdf(name) && Unit(ids, apiKey, env, name).uncaught.None? ==>
              |Unit(ids, apiKey, env, name).messages| == 1
              && Unit(ids, apiKey, env, name).messages[0].student == StudentId(name)
              && !Unit(ids, apiKey, env, name).messages[0].AllProcessed?
  {
  }

  /** The order of remote calls within a unit: none for a non-PDF entry or a
      missing file; otherwise the initiation comes first, and the upload is
      made only when initiation returned a ticket with both fields. */
  lemma UnitCallOrder(ids: LinkIds, apiKey: string, env: Env, name: string)
    ensures var calls := Unit(ids, apiKey, env, name).calls;
            !IsPdf(name) || !env.present(name) ==> calls == []
    ensures var calls := Unit(ids, apiKey, env, name).calls;
            var request := InitRequest(ids.courseId, ids.assignmentId, StudentId(name), name, apiKey);
            var initiated := InitiateFileUpload(env.initiate(request));
            IsPdf(name) && env.present(name) ==>
              && 1 <= |calls| <= 2
              && calls[0] == Initiate(request)
              && (|calls| == 2 <==> initiated.Returned? && TicketFields(initiated.value).Returned?)
              && (|calls| == 2 ==> calls[1] == Upload(UploadRequest(TicketFields(initiated.value).value.0,
                                                                    TicketFields(initiated.value).value.1, name)))
  {
  }

  /** A listed file that is gone yields a not-found warning and no call. */
  lemma UnitMissingFile(ids: LinkIds, apiKey: string, env: Env, name: string)
    requires IsPdf(name) && !env.present(name)
    ensures Unit(ids, apiKey, env, name) == Trace([NotFound(StudentId(name))], [], None)
  {
  }

  /** A rejected initiation is reported as an error and nothing is uploaded. */
  lemma UnitInitiationRejected(ids: LinkIds, apiKey: string, env: Env, name: string)
    requires IsPdf(name) && env.present(name)
    requires env.initiate(InitRequest(ids.courseId, ids.assignmentId, StudentId(name), name, apiKey)).status != 200
    ensures Unit(ids, apiKey, env, name)
         == Trace([Failed(StudentId(name), InitiationFailed)],
                  [Initiate(InitRequest(ids.courseId, ids.assignmentId, StudentId(name), name, apiKey))], None)
  {
  }

  /** An upload answered with a status other than 200, 201 or 302 gives an
      error message with the upload-failed reason, after both calls, and
      nothing escapes. */
  lemma UnitUploadRejected(ids: LinkIds, apiKey: string, env: Env, name: string,
                           url: string, params: map<string, string>)
    requires IsPdf(name) && env.present(name)
    requires env.initiate(InitRequest(ids.courseId, ids.assignmentId, StudentId(name), name, apiKey))
          == InitResponse(200, Some(Ticket(Some(url), Some(params))))
    requires !UploadAccepted(env.upload(UploadRequest(url, params, name)).status)
    ensures Unit(ids, apiKey, env, name)
         == Trace([Failed(StudentId(name), UploadFailed)],
                  [Initiate(InitRequest(ids.courseId, ids.assignmentId, StudentId(name), name, apiKey)),
                   Upload(UploadRequest(url, params, name))], None)
  {
  }

  /** Exactly the non-Canvas exceptions escape a unit: a malformed initiation
      body, a ticket without one of its two fields, or an accepted upload
      with neither `Location` nor a JSON body. */
  lemma UnitEscapes(ids: LinkIds, apiKey: string, env: Env, name: string)
    ensures var request := InitRequest(ids.courseId, ids.assignmentId, StudentId(name), name, apiKey);
            var response := env.initiate(request);
            Unit(ids, apiKey, env, name).uncaught.Some?
            <==>
            IsPdf(name) && env.present(name) && response.status == 200
            && (|| response.body.None?
                || response.body.value.uploadUrl.None?
                || response.body.value.uploadParams.None?
                || var upload := env.upload(UploadRequest(response.body.value.uploadUrl.value,
                                                          response.body.value.uploadParams.value, name));
                   UploadAccepted(upload.status) && !HasLocation(upload) && upload.body.NotJsonObject?)
    ensures Unit(ids, apiKey, env, name).uncaught.Some? ==> !Unit(ids, apiKey, env, name).uncaught.value.CanvasException?
  {
  }

  /** The empty student id of a file named ".pdf" is not rejected: the
      upload is initiated for user "". */
  lemma EmptyStudentIdNotRejected(ids: LinkIds, apiKey: string, env: Env)
    requires env.present(".pdf")
    ensures Unit(ids, apiKey, env, ".pdf").calls[0]
         == Initiate(InitRequest(ids.courseId, ids.assignmentId, "", ".pdf", apiKey))
  {
    StudentIdEmpty();
    UnitCallOrder(ids, apiKey, env, ".pdf");
  }

  /** Unit "1001.pdf": the ticket names https://x/y, the response handed to
      `upload_file` has status 302 and `Location` https://x/files/555, and
      the student is told file id "555". */
  lemma RedirectScenario(ids: LinkIds, apiKey: string, env: Env, dir: string, fileId: string)
    requires dir == "https://x/files" && fileId == "555"
    requires env.present("1001.pdf")
    requires env.initiate(InitRequest(ids.courseId, ids.assignmentId, "1001", "1001.pdf", apiKey))
          == InitResponse(200, Some(Ticket(Some("https://x/y"), Some(map["a" := "b"]))))
    requires env.upload(UploadRequest("https://x/y", map["a" := "b"], "1001.pdf"))
          == UploadResponse(302, Some(dir + "/" + fileId), NotJsonObject)
    ensures Unit(ids, apiKey, env, "1001.pdf")
         == Trace([Uploaded("1001", Some("555"))],
                  [Initiate(InitRequest(ids.courseId, ids.assignmentId, "1001", "1001.pdf", apiKey)),
                   Upload(UploadRequest("https://x/y", map["a" := "b"], "1001.pdf"))],
                  None)
  {
    StudentIdPlain();
    RedirectExample(dir, fileId);
    var request := InitRequest(ids.courseId, ids.assignmentId, "1001", "1001.pdf", apiKey);
    var ticket := Ticket(Some("https://x/y"), Some(map["a" := "b"]));
    assert InitiateFileUpload(env.initiate(request)) == Returned(ticket);
    assert TicketFields(ticket) == Returned(("https://x/y", map["a" := "b"]));
  }

  /** The loop stops with an escaped exception exactly when some entry lets
      a non-Canvas exception escape. */
  lemma {:induction false} StepsUncaughtIff(ids: LinkIds, apiKey: string, env: Env, names: seq<string>)
    ensures Steps(ids, apiKey, env, names).uncaught.None?
            <==> forall k :: 0 <= k < |names| ==> Unit(ids, apiKey, env, names[k]).uncaught.None?
  {
    if names != [] {
      var init := names[..|names| - 1];
      StepsUncaughtIff(ids, apiKey, env, init);
      assert forall k :: 0 <= k < |init| ==> init[k] == names[k];
    }
  }

  /** Remote calls are made only for PDF entries of the listing whose file
      is still there. */
  lemma {:induction false} StepsCallsOnlyForPresentPdfs(ids: LinkIds, apiKey: string, env: Env, names: seq<string>)
    ensures forall c :: c in Steps(ids, apiKey, env, names).calls ==>
              FileOf(c) in names && IsPdf(FileOf(c)) && env.present(FileOf(c))
  {
    if names != [] {
      var init := names[..|names| - 1];
      var last := names[|names| - 1];
      StepsCallsOnlyForPresentPdfs(ids, apiKey, env, init);
      assert names == init + [last];
      UnitCallOrder(ids, apiKey, env, last);
    }
  }

  /** When no exception escapes, the loop shows one message per selected
      entry, in listing order, each the one that entry alone yields. */
  lemma {:induction false} StepsReports(ids: LinkIds, apiKey: string, env: Env, names: seq<string>)
    requires forall k :: 0 <= k < |names| ==> Unit(ids, apiKey, env, names[k]).uncaught.None?
    ensures Steps(ids, apiKey, env, names).uncaught.None?
    ensures |Steps(ids, apiKey, env, names).messages| == |Selected(names)|
    ensures forall k :: 0 <= k < |Selected(names)| ==>
              Steps(ids, apiKey, env, names).messages[k] == Unit(ids, apiKey, env, Selected(names)[k]).messages[0]
  {
    if names != [] {
      var init := names[..|names| - 1];
      var last := names[|names| - 1];
      assert forall k :: 0 <= k < |init| ==> init[k] == names[k];
      StepsReports(ids, apiKey, env, init);
      UnitReports(ids, apiKey, env, last);
      var before := Steps(ids, apiKey, env, init);
      var sel := Selected(names);
      assert forall k :: 0 <= k < |Selected(init)| ==> sel[k] == Selected(init)[k];
    }
  }

  /** A run in which no exception escapes: for N selected entries it shows
      exactly N unit messages, in listing order, one per student, each
      independent of how the other units fared, and then one closing
      notice. */
  lemma {:induction false} BatchCompletes(apiKey: string, link: string, listing: seq<string>, env: Env)
    requires ParseLink(link).Returned?
    requires forall k :: 0 <= k < |listing| ==>
               Unit(ParseLink(link).value, apiKey, env, listing[k]).uncaught.None?
    ensures var r := Batch(apiKey, link, listing, env);
            var sel := Selected(listing);
            && r.uncaught.None?
            && |r.messages| == |sel| + 1
            && r.messages[|sel|] == AllProcessed
            && forall k :: 0 <= k < |sel| ==>
                 && r.messages[k] == Unit(ParseLink(link).value, apiKey, env, sel[k]).messages[0]
                 && r.messages[k].student == StudentId(sel[k])
                 && !r.messages[k].AllProcessed?
  {
    var ids := ParseLink(link).value;
    StepsReports(ids, apiKey, env, listing);
    var sel := Selected(listing);
    forall k | 0 <= k < |sel|
      ensures Unit(ids, apiKey, env, sel[k]).uncaught.None?
      ensures |Unit(ids, apiKey, env, sel[k]).messages| == 1
      ensures Unit(ids, apiKey, env, sel[k]).messages[0].student == StudentId(sel[k])
      ensures !Unit(ids, apiKey, env, sel[k]).messages[0].AllProcessed?
    {
      assert sel[k] in listing;
      UnitReports(ids, apiKey, env, sel[k]);
    }
  }

  /** An exception escaping entry k, after k entries that finished, ends the
      loop with their messages and calls followed by entry k's calls. */
  lemma StepsEscapeAt(ids: LinkIds, apiKey: string, env: Env, names: seq<string>, k: nat)
    requires k < |names|
    requires Steps(ids, apiKey, env, names[..k]).uncaught.None?
    requires Unit(ids, apiKey, env, names[k]).uncaught.Some?
    ensures var pre := Steps(ids, apiKey, env, names[..k]);
            var u := Unit(ids, apiKey, env, names[k]);
            Steps(ids, apiKey, env, names) == Trace(pre.messages, pre.calls + u.calls, u.uncaught)
  {
    var pre := Steps(ids, apiKey, env, names[..k]);
    var u := Unit(ids, apiKey, env, names[k]);
    UnitReports(ids, apiKey, env, names[k]);
    assert names[..k + 1][..k] == names[..k];
    assert Steps(ids, apiKey, env, names[..k + 1]) == Then(pre, u);
    StepsStopAt(ids, apiKey, env, names, k + 1);
  }

  /** Units that finish never show the closing notice. */
  lemma StepsNoClosingNotice(ids: LinkIds, apiKey: string, env: Env, names: seq<string>)
    requires forall k :: 0 <= k < |names| ==> Unit(ids, apiKey, env, names[k]).uncaught.None?
    ensures AllProcessed !in Steps(ids, apiKey, env, names).messages
  {
    StepsReports(ids, apiKey, env, names);
    var sel := Selected(names);
    forall m | 0 <= m < |sel| ensures Steps(ids, apiKey, env, names).messages[m] != AllProcessed {
      assert sel[m] in names;
      UnitReports(ids, apiKey, env, sel[m]);
    }
  }

  /** A run ended by an exception escaping entry `k`: it shows what the
      entries before `k` showed and no closing notice, and makes no remote
      call after that entry's. */
  lemma {:induction false} BatchAborts(apiKey: string, link: string, listing: seq<string>, env: Env, k: nat)
    requires ParseLink(link).Returned?
    requires k < |listing|
    requires forall j :: 0 <= j < k ==> Unit(ParseLink(link).value, apiKey, env, listing[j]).uncaught.None?
    requires Unit(ParseLink(link).value, apiKey, env, listing[k]).uncaught.Some?
    ensures var ids := ParseLink(link).value;
            var r := Batch(apiKey, link, listing, env);
            && r.uncaught == Unit(ids, apiKey, env, listing[k]).uncaught
            && r.messages == Steps(ids, apiKey, env, listing[..k]).messages
            && |r.messages| == |Selected(listing[..k])|
            && AllProcessed !in r.messages
            && r.calls == Steps(ids, apiKey, env, listing[..k]).calls + Unit(ids, apiKey, env, listing[k]).calls
  {
    var ids := ParseLink(link).value;
    var prefix := listing[..k];
    assert forall j :: 0 <= j < k ==> prefix[j] == listing[j];
    StepsReports(ids, apiKey, env, prefix);
    StepsEscapeAt(ids, apiKey, env, listing, k);
    StepsNoClosingNotice(ids, apiKey, env, prefix);
  }

  /** The run ends early by an exception exactly when the link has fewer
      than two '/' or some entry lets a non-Canvas exception escape. */
  lemma {:induction false} BatchUncaughtIff(apiKey: string, link: string, listing: seq<string>, env: Env)
    ensures Batch(apiKey, link, listing, env).uncaught.None?
            <==> ParseLink(link).Returned?
                 && forall k :: 0 <= k < |listing| ==> Unit(ParseLink(link).value, apiKey, env, listing[k]).uncaught.None?
  {
    if ParseLink(link).Returned? {
      StepsUncaughtIff(ParseLink(link).value, apiKey, env, listing);
    }
  }
}
