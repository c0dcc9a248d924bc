/**
 * `main` (scripts/generate-playgrounds.py): the checks before any work,
 * then for each selected lesson a call of `generate_playground`, an append
 * to the lesson file on success and the success and failure counters.
 */
module Driver {
  import opened Wrappers
  import opened Text
  import opened Lessons
  import opened Extraction
  import opened Generation
  import opened Files
  import opened LessonSelection

  /** What is written to the end of a lesson file for the playground `block`. */
  function Addition(block: string): string {
    "\n" + block + "\n"
  }

  /** What the loop over the selected lessons carries: the directory, both counters and the client calls made so far. */
  datatype Progress = Progress(lessons: seq<Lesson>, success: nat, failed: nat, calls: nat)

  /** The request `generate_playground` sends for the lesson `name` of the directory. */
  function LessonRequest(model: string, section: string, template: string, ls: seq<Lesson>, name: string): Request
    requires name in Names(ls)
  {
    RequestFor(model, ContentOf(ls, name), section, template, name)
  }

  /**
   * The state after the outcome of `generate_playground` for the lesson
   * `name`: its playground appended and a success counted, or a failure
   * counted, and the calls made added up.
   */
  function Record(p: Progress, name: string, block: Option<string>, made: nat): (r: Progress)
    requires name in Names(p.lessons)
    ensures Names(r.lessons) == Names(p.lessons)
    ensures r.success + r.failed == p.success + p.failed + 1
    ensures r.calls == p.calls + made
  {
    match block
    case Some(b) =>
      AppendTextNames(p.lessons, name, Addition(b));
      Progress(AppendText(p.lessons, name, Addition(b)), p.success + 1, p.failed, p.calls + made)
    case None => Progress(p.lessons, p.success, p.failed + 1, p.calls + made)
  }

  /** The two outcomes `Record` tells apart. */
  lemma RecordCases(ls: seq<Lesson>, success: nat, failed: nat, calls: nat, name: string, block: Option<string>,
                    made: nat, r: Progress)
    requires name in Names(ls)
    requires block.Some? ==> r == Progress(AppendText(ls, name, Addition(block.value)), success + 1, failed, calls + made)
    requires block.None? ==> r == Progress(ls, success, failed + 1, calls + made)
    ensures r == Record(Progress(ls, success, failed, calls), name, block, made)
  {
  }

  /** Recording an outcome appends to the lesson's own file only, and only the block kept. */
  lemma RecordAppends(p: Progress, name: string, block: Option<string>, made: nat, m: string)
    requires name in Names(p.lessons) && m in Names(p.lessons)
    ensures var r := Record(p, name, block, made);
            && (block.None? || m != name ==> ContentOf(r.lessons, m) == ContentOf(p.lessons, m))
            && (block.Some? && m == name ==> ContentOf(r.lessons, m) == ContentOf(p.lessons, m) + Addition(block.value))
  {
    if block.Some? {
      AppendTextLookup(p.lessons, name, Addition(block.value), m);
    }
  }

  /** The state after handling the lesson `name` with the default retry budget. */
  function Handle(client: Client, model: string, section: string, template: string, name: string, p: Progress): (r: Progress)
    requires name in Names(p.lessons)
    ensures Names(r.lessons) == Names(p.lessons)
    ensures r.success + r.failed == p.success + p.failed + 1
    ensures p.calls <= r.calls <= p.calls + DefaultRetries
  {
    var q := LessonRequest(model, section, template, p.lessons, name);
    Record(p, name, FirstBlock(AttemptBlock, client, q, p.calls, Tries(DefaultRetries)),
           CallsMade(AttemptBlock, client, q, p.calls, Tries(DefaultRetries)))
  }

  /** The loop `for i, fpath in enumerate(needs_playground, 1)`, over the lessons `names` in order. */
  function Process(client: Client, model: string, section: string, template: string, names: seq<string>, p: Progress): (r: Progress)
    requires forall n :: n in names ==> n in Names(p.lessons)
    ensures Names(r.lessons) == Names(p.lessons)
    decreases |names|
  {
    if names == [] then p
    else Process(client, model, section, template, names[1..], Handle(client, model, section, template, names[0], p))
  }

  /**
   * Every lesson is counted once, as a success or as a failure, and at
   * most `DefaultRetries` client calls are made for each.
   */
  lemma {:induction false} ProcessCounts(client: Client, model: string, section: string, template: string,
                                         names: seq<string>, p: Progress)
    requires forall n :: n in names ==> n in Names(p.lessons)
    ensures var r := Process(client, model, section, template, names, p);
            && r.success + r.failed == p.success + p.failed + |names|
            && p.calls <= r.calls <= p.calls + DefaultRetries * |names|
    decreases |names|
  {
    if names != [] {
      ProcessCounts(client, model, section, template, names[1..], Handle(client, model, section, template, names[0], p));
    }
  }

  /** Handling one lesson appends to that lesson file only, and only text that holds a complete playground. */
  lemma HandleAppends(client: Client, model: string, section: string, template: string, name: string, p: Progress, m: string)
    requires name in Names(p.lessons) && m in Names(p.lessons)
    ensures var r := Handle(client, model, section, template, name, p);
            || ContentOf(r.lessons, m) == ContentOf(p.lessons, m)
            || (m == name && exists b :: IsComplete(b) && ContentOf(r.lessons, m) == ContentOf(p.lessons, m) + Addition(b))
  {
    var q := LessonRequest(model, section, template, p.lessons, name);
    HandleRecords(client, model, section, template, name, p);
    var block := FirstBlock(AttemptBlock, client, q, p.calls, Tries(DefaultRetries));
    RecordAppends(p, name, block, CallsMade(AttemptBlock, client, q, p.calls, Tries(DefaultRetries)), m);
    KeptBlockComplete(client, q, p.calls, Tries(DefaultRetries));
    if block.Some? && m == name {
      var b := block.value;
      assert IsComplete(b);
    }
  }

  /** Handling a lesson records the outcome of the loop over its calls. */
  lemma HandleRecords(client: Client, model: string, section: string, template: string, name: string, p: Progress)
    requires name in Names(p.lessons)
    ensures var q := LessonRequest(model, section, template, p.lessons, name);
            Handle(client, model, section, template, name, p) ==
              Record(p, name, FirstBlock(AttemptBlock, client, q, p.calls, Tries(DefaultRetries)),
                     CallsMade(AttemptBlock, client, q, p.calls, Tries(DefaultRetries)))
  {
  }

  /** The steps of one pass of the loop of `main`, put together, are `Handle`. */
  lemma HandleSteps(client: Client, model: string, section: string, template: string, name: string,
                    ls: seq<Lesson>, success: nat, failed: nat, calls: nat,
                    content: string, block: Option<string>, made: nat, r: Progress)
    requires Lookup(ls, name) == Some(content)
    requires block == FirstBlock(AttemptBlock, client, RequestFor(model, content, section, template, name), calls, Tries(DefaultRetries))
    requires made == CallsMade(AttemptBlock, client, RequestFor(model, content, section, template, name), calls, Tries(DefaultRetries))
    requires block.Some? ==> r == Progress(AppendText(ls, name, Addition(block.value)), success + 1, failed, calls + made)
    requires block.None? ==> r == Progress(ls, success, failed + 1, calls + made)
    ensures r == Handle(client, model, section, template, name, Progress(ls, success, failed, calls))
  {
    var p := Progress(ls, success, failed, calls);
    RecordCases(ls, success, failed, calls, name, block, made, r);
    HandleRecords(client, model, section, template, name, p);
    assert LessonRequest(model, section, template, p.lessons, name) == RequestFor(model, content, section, template, name);
  }

  /**
   * Per lesson file: with the lessons `names` all different, a file ends up
   * unchanged or with one complete playground appended, and a file that
   * is not one of `names` is unchanged.
   */
  lemma {:induction false} ProcessedContent(client: Client, model: string, section: string, template: string,
                                            names: seq<string>, p: Progress, m: string)
    requires forall n :: n in names ==> n in Names(p.lessons)
    requires Distinct(names) && m in Names(p.lessons)
    ensures var r := Process(client, model, section, template, names, p);
            || ContentOf(r.lessons, m) == ContentOf(p.lessons, m)
            || (m in names && exists b :: IsComplete(b) && ContentOf(r.lessons, m) == ContentOf(p.lessons, m) + Addition(b))
    decreases |names|
  {
    if names != [] {
      var next := Handle(client, model, section, template, names[0], p);
      HandleAppends(client, model, section, template, names[0], p, m);
      DistinctTail(names);
      ProcessedContent(client, model, section, template, names[1..], next, m);
      if m == names[0] {
        ProcessSkips(client, model, section, template, names[1..], next, m);
      }
    }
  }

  /** A file that is not one of the lessons processed is left as it is. */
  lemma {:induction false} ProcessSkips(client: Client, model: string, section: string, template: string,
                                        names: seq<string>, p: Progress, m: string)
    requires forall n :: n in names ==> n in Names(p.lessons)
    requires m !in names && m in Names(p.lessons)
    ensures ContentOf(Process(client, model, section, template, names, p).lessons, m) == ContentOf(p.lessons, m)
    decreases |names|
  {
    if names != [] {
      var next := Handle(client, model, section, template, names[0], p);
      HandleAppends(client, model, section, template, names[0], p, m);
      ProcessSkips(client, model, section, template, names[1..], next, m);
    }
  }

  /** A file that gets text appended has a playground afterwards, so a second run does not select it again. */
  lemma AppendedHasPlayground(content: string, b: string)
    requires IsComplete(b)
    ensures HasPlayground(content + Addition(b))
  {
    var k :| OccursAt(b, SandpackTag, k);
    OccursShift(content + "\n", b, "\n", SandpackTag, k);
    assert content + Addition(b) == (content + "\n") + b + "\n";
  }

  /**
   * What one run of the loop does to a directory: a file that was not
   * selected is unchanged, and a file that changed has one complete
   * playground appended, so a later run (with any limit) does not select it.
   */
  lemma RunMarksChanged(client: Client, model: string, section: string, template: string,
                        ls: seq<Lesson>, limit: int, later: int, m: string)
    requires DistinctNames(ls) && m in Names(ls)
    ensures (
              SelectionInNames(ls, limit);
              var sel := Selection(ls, limit);
              var r := Process(client, model, section, template, sel, Progress(ls, 0, 0, 0));
              && (m !in sel ==> ContentOf(r.lessons, m) == ContentOf(ls, m))
              && (ContentOf(r.lessons, m) != ContentOf(ls, m) ==>
                    && (exists b :: IsComplete(b) && ContentOf(r.lessons, m) == ContentOf(ls, m) + Addition(b))
                    && HasPlayground(ContentOf(r.lessons, m))
                    && m !in Selection(r.lessons, later)))
  {
    SelectionInNames(ls, limit);
    SelectionDistinct(ls, limit);
    var sel := Selection(ls, limit);
    var p0 := Progress(ls, 0, 0, 0);
    var r := Process(client, model, section, template, sel, p0);
    if m !in sel {
      ProcessSkips(client, model, section, template, sel, p0, m);
    }
    ProcessedContent(client, model, section, template, sel, p0, m);
    if ContentOf(r.lessons, m) != ContentOf(ls, m) {
      var b :| IsComplete(b) && ContentOf(r.lessons, m) == ContentOf(ls, m) + Addition(b);
      AppendedHasPlayground(ContentOf(ls, m), b);
      SelectionMembers(r.lessons, later, m);
    }
  }

  /** The result of a run of `main` that gets past the checks at its start. */
  datatype Outcome =
    | MissingApiKey      // `GOOGLE_GEMINI_API_KEY` is not set or empty
    | UnknownSection     // the section is not one of `Sections`
    | MissingDirectory   // the section directory does not exist
    | NothingToDo        // every lesson file already has a playground
    | Done(success: nat, failed: nat)

  /**
   * One pass of the per-file loop of `main` for the lesson `name`: read it,
   * call `generate_playground` with the default retry budget numbering the
   * calls on from `calls`, append the playground on success and count the
   * result.
   */
  method HandleLesson(pages: Pages, client: Client, model: string, section: string, template: string, name: string,
                      success: nat, failed: nat, calls: nat)
    returns (success': nat, failed': nat, calls': nat)
    requires name in Names(pages.lessons)
    modifies pages
    ensures Progress(pages.lessons, success', failed', calls') ==
            Handle(client, model, section, template, name, Progress(old(pages.lessons), success, failed, calls))
  {
    ghost var ls := pages.lessons;
    var content := pages.Read(name);
    var playground, made, waits := GeneratePlayground(client, calls, model, content, section, template, name, DefaultRetries);
    if playground.Some? {
      pages.Append(name, Addition(playground.value));
      success', failed', calls' := success + 1, failed, calls + made;
      HandleSteps(client, model, section, template, name, ls, success, failed, calls, content, playground, made,
                  Progress(pages.lessons, success', failed', calls'));
    } else {
      success', failed', calls' := success, failed + 1, calls + made;
      HandleSteps(client, model, section, template, name, ls, success, failed, calls, content, playground, made,
                  Progress(pages.lessons, success', failed', calls'));
    }
  }

  /**
   * The per-file loop of `main` over the lessons `names`, in order, with
   * the client calls numbered on from `call`.
   */
  method ProcessLessons(pages: Pages, client: Client, model: string, section: string, template: string,
                        names: seq<string>, call: nat)
    returns (success: nat, failed: nat, calls: nat)
    requires forall n :: n in names ==> n in Names(pages.lessons)
    modifies pages
    ensures var r := Process(client, model, section, template, names, Progress(old(pages.lessons), 0, 0, call));
            pages.lessons == r.lessons && success == r.success && failed == r.failed && calls == r.calls
  {
    ghost var p0 := Progress(pages.lessons, 0, 0, call);
    success, failed, calls := 0, 0, call;
    for i := 0 to |names|
      invariant forall n :: n in names ==> n in Names(pages.lessons)
      invariant Process(client, model, section, template, names, p0) ==
                Process(client, model, section, template, names[i..], Progress(pages.lessons, success, failed, calls))
    {
      assert names[i..][0] == names[i] && names[i..][1..] == names[i + 1..];
      success, failed, calls := HandleLesson(pages, client, model, section, template, names[i], success, failed, calls);
    }
  }

  /**
   * `main` after the argument parsing: the API key check, the section
   * check, the directory check, the selection and the per-file loop.
   * A run that stops before the loop leaves every file as it was; a run
   * that reaches it counts every selected lesson as a success or a failure.
   */
  method RunSection(apiKey: Option<string>, section: string, limit: int, model: string, pages: Pages?, client: Client)
    returns (outcome: Outcome)
    modifies pages
    ensures apiKey.None? || apiKey == Some("") ==> outcome == MissingApiKey
    ensures apiKey.Some? && apiKey != Some("") && section !in Sections ==> outcome == UnknownSection
    ensures apiKey.Some? && apiKey != Some("") && section in Sections && pages == null ==> outcome == MissingDirectory
    ensures pages != null && !outcome.Done? ==> pages.lessons == old(pages.lessons)
    ensures apiKey.Some? && apiKey != Some("") && section in Sections && pages != null ==> (
              SelectionInNames(old(pages.lessons), limit);
              var sel := Selection(old(pages.lessons), limit);
              var r := Process(client, model, section, Sections[section], sel, Progress(old(pages.lessons), 0, 0, 0));
              && pages.lessons == r.lessons
              && outcome == (if sel == [] then NothingToDo else Done(r.success, r.failed)))
  {
    if apiKey.None? || apiKey == Some("") {
      return MissingApiKey;
    }
    if section !in Sections {
      return UnknownSection;
    }
    var template := Sections[section];
    if pages == null {
      return MissingDirectory;
    }
    var total, selected := SelectLessons(pages, limit);
    if selected == [] {
      return NothingToDo;
    }
    SelectionInNames(pages.lessons, limit);
    var success, failed, calls := ProcessLessons(pages, client, model, section, template, selected, 0);
    outcome := Done(success, failed);
  }
}
