/**
 * `generate_playground` (scripts/generate-playgrounds.py): ask the model
 * for a playground up to `retries` times and keep the first complete block.
 *
 * The model client is a function from a request and the number of calls
 * made before it to a reply, so different calls may get different answers.
 * A reply is either text or a failure: an exception raised by the client and
 * a reply without text (which makes the extraction raise) both land in the
 * same `except` branch and are one outcome here.
 */
module Generation {
  import opened Wrappers
  import opened Text
  import opened Lessons
  import opened Extraction

  /** The sampling temperature and the output limit sent with every request. */
  const Temperature: real := 0.2
  const MaxOutputTokens: nat := 16384

  /** The retry budget `main` uses (the default of `retries`). */
  const DefaultRetries := 3

  /** One `generate_content` call: the model name, the prompt and its configuration. */
  datatype Request = Request(model: string, contents: string, temperature: real, maxOutputTokens: nat)

  /** What a call gives back: the response text, or a failure (an exception, or no text). */
  datatype Reply = Failed | Answer(text: string)

  /** The model client: the reply to a request, given how many calls were made before it. */
  type Client = (Request, nat) -> Reply

  /** The request `generate_playground` sends for one lesson. */
  function RequestFor(model: string, content: string, section: string, template: string, filename: string): (q: Request)
    ensures q.model == model && q.temperature == Temperature && q.maxOutputTokens == MaxOutputTokens
    ensures Contains(q.contents, LessonTitle(content)) && Contains(q.contents, Fragment(content))
    ensures Contains(q.contents, section) && Contains(q.contents, template) && Contains(q.contents, EntryFile(template))
  {
    Request(model, Prompt(content, section, template, filename), Temperature, MaxOutputTokens)
  }

  /** A block the loop accepts: not empty, holding the tag and ending with `/>`. */
  predicate IsComplete(block: string) {
    |block| > 0 && Contains(block, SandpackTag) && EndsWith(block, SelfClose)
  }

  /** The block one reply yields, if the loop accepts it. */
  function AttemptBlock(reply: Reply): (b: Option<string>)
    ensures b.Some? ==> IsComplete(b.value)
  {
    match reply
    case Failed => None
    case Answer(text) =>
      match ExtractSandpackBlock(text)
      case Some(block) => if IsComplete(block) then Some(block) else None
      case None => None
  }

  /**
   * The check after the extraction never rejects anything: every block the
   * extraction returns is complete, so an answer is accepted exactly when
   * the extraction finds a block.
   */
  lemma AttemptIsExtraction(text: string)
    ensures AttemptBlock(Answer(text)) == ExtractSandpackBlock(text)
  {
    ExtractedBlockShape(text);
    match ExtractSandpackBlock(text)
    case Some(block) =>
      assert |block| >= 2 by { assert StartsWith(block, "\n\n" + SectionHeading); }
    case None =>
  }

  /** How the loop judges one reply: the block it keeps from it, if any. */
  type Judge = Reply -> Option<string>

  /**
   * The block the loop over the `count` calls numbered `from` on keeps:
   * the judgement of the first call that yields one.
   */
  function FirstBlock(judge: Judge, client: Client, q: Request, from: nat, count: nat): Option<string>
    decreases count
  {
    if count == 0 then None
    else match judge(client(q, from))
      case Some(block) => Some(block)
      case None => FirstBlock(judge, client, q, from + 1, count - 1)
  }

  /**
   * The number of calls that loop makes: up to and including the first call
   * that yields a block, whose judgement is the block kept, or all of them.
   */
  function CallsMade(judge: Judge, client: Client, q: Request, from: nat, count: nat): (n: nat)
    ensures n <= count
    ensures FirstBlock(judge, client, q, from, count).None? ==> n == count
    ensures FirstBlock(judge, client, q, from, count).Some? ==>
              1 <= n && FirstBlock(judge, client, q, from, count) == judge(client(q, from + n - 1))
    decreases count
  {
    if count == 0 then 0
    else if judge(client(q, from)).Some? then 1
    else 1 + CallsMade(judge, client, q, from + 1, count - 1)
  }

  /** Every call before the last one made yields nothing; when no block is kept, no call yields one. */
  lemma {:induction false} EarlierCallsFailed(judge: Judge, client: Client, q: Request, from: nat, count: nat, j: nat)
    requires from <= j < from + count
    requires j < from + CallsMade(judge, client, q, from, count) - 1 || FirstBlock(judge, client, q, from, count).None?
    ensures judge(client(q, j)).None?
    decreases count
  {
    if from < j {
      EarlierCallsFailed(judge, client, q, from + 1, count - 1, j);
    }
  }

  /**
   * A block is kept exactly when some call yields one, and the call that
   * gives it is the first that does.
   */
  lemma SomeCallSucceeded(judge: Judge, client: Client, q: Request, from: nat, count: nat)
    ensures FirstBlock(judge, client, q, from, count).Some? <==>
              exists j :: from <= j < from + count && judge(client(q, j)).Some?
    ensures forall j :: from <= j < from + count && judge(client(q, j)).Some? ==>
              from + CallsMade(judge, client, q, from, count) - 1 <= j
  {
    forall j | from <= j < from + count && judge(client(q, j)).Some?
      ensures FirstBlock(judge, client, q, from, count).Some? && from + CallsMade(judge, client, q, from, count) - 1 <= j
    {
      if FirstBlock(judge, client, q, from, count).None? || j < from + CallsMade(judge, client, q, from, count) - 1 {
        EarlierCallsFailed(judge, client, q, from, count, j);
      }
    }
    if FirstBlock(judge, client, q, from, count).Some? {
      var last := from + CallsMade(judge, client, q, from, count) - 1;
      assert from <= last < from + count && judge(client(q, last)).Some?;
    }
  }

  /**
   * Failed calls and answers without a complete block are handled alike:
   * two clients whose replies are judged alike lead to the same block and
   * the same number of calls.
   */
  lemma {:induction false} FailuresAlike(judge: Judge, c1: Client, c2: Client, q: Request, from: nat, count: nat)
    requires forall j :: from <= j < from + count ==> judge(c1(q, j)) == judge(c2(q, j))
    ensures FirstBlock(judge, c1, q, from, count) == FirstBlock(judge, c2, q, from, count)
    ensures CallsMade(judge, c1, q, from, count) == CallsMade(judge, c2, q, from, count)
    decreases count
  {
    if count > 0 {
      assert judge(c1(q, from)) == judge(c2(q, from));
      FailuresAlike(judge, c1, c2, q, from + 1, count - 1);
    }
  }

  /** A block kept by the loop that judges replies with `AttemptBlock` is complete. */
  lemma KeptBlockComplete(client: Client, q: Request, from: nat, count: nat)
    ensures FirstBlock(AttemptBlock, client, q, from, count).Some? ==>
              IsComplete(FirstBlock(AttemptBlock, client, q, from, count).value)
  {
    var n := CallsMade(AttemptBlock, client, q, from, count);
  }

  /** The number of calls `range(retries)` allows: none when `retries` is not positive. */
  function Tries(retries: int): nat {
    if retries > 0 then retries else 0
  }

  /**
   * `generate_playground`: the block kept and the number of client calls
   * are those of `FirstBlock` and `CallsMade` over the calls numbered
   * `start` on, as many as `Tries(retries)`, each reply judged by
   * `AttemptBlock`; a returned block is complete, and a wait follows every
   * call but the last one.
   */
  method GeneratePlayground(client: Client, start: nat, model: string, content: string, section: string,
                            template: string, filename: string, retries: int)
    returns (block: Option<string>, calls: nat, waits: nat)
    ensures block == FirstBlock(AttemptBlock, client, RequestFor(model, content, section, template, filename),
                                start, Tries(retries))
    ensures calls == CallsMade(AttemptBlock, client, RequestFor(model, content, section, template, filename),
                               start, Tries(retries))
    ensures block.Some? ==> IsComplete(block.value)
    ensures waits == if calls == 0 then 0 else calls - 1
  {
    var q := RequestFor(model, content, section, template, filename);
    block, calls, waits := Attempts(AttemptBlock, client, q, start, Tries(retries));
  }

  /**
   * The `for attempt in range(retries)` loop for the request `q`, making
   * the `tries` calls numbered `start` on and judging each reply with
   * `judge`; a block returned is the judgement of the last call made.
   */
  method Attempts(judge: Judge, client: Client, q: Request, start: nat, tries: nat)
    returns (block: Option<string>, calls: nat, waits: nat)
    ensures block == FirstBlock(judge, client, q, start, tries)
    ensures calls == CallsMade(judge, client, q, start, tries)
    ensures waits == if calls == 0 then 0 else calls - 1
  {
    var attempt: nat := 0;
    calls, waits := 0, 0;
    while attempt < tries
      invariant attempt <= tries && (attempt < tries || tries == 0)
      invariant calls == attempt && waits == attempt
      invariant FirstBlock(judge, client, q, start, tries) == FirstBlock(judge, client, q, start + attempt, tries - attempt)
      invariant CallsMade(judge, client, q, start, tries) == calls + CallsMade(judge, client, q, start + attempt, tries - attempt)
      decreases tries - attempt
    {
      var reply := client(q, start + attempt);
      calls := calls + 1;
      var b := judge(reply);
      if b.Some? {
        block := b;
        return;
      }
      if attempt < tries - 1 {
        waits := waits + 1;
      } else {
        block := None;
        return;
      }
      attempt := attempt + 1;
    }
    block := None;
  }
}
