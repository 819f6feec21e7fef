/**
 Structured completions against a server that may answer anything.

 The server is an arbitrary function of every request sent so far, so what is
 proved holds for every behaviour of it, including one that changes its mind.
 */
module ChatApi {
  import opened Wrappers
  import opened Json
  import Texts

  datatype Usage = Usage(cost: Option<real>, promptTokens: Option<nat>, completionTokens: Option<nat>)
  datatype Choice = Choice(content: Option<string>, finishReason: Option<string>)
  datatype Response = Response(choices: seq<Choice>, usage: Option<Usage>)

  /** One call: its token budget, and whether reasoning is switched off in it. */
  datatype Request = Request(maxTokens: Option<nat>, reasoningOff: bool)

  datatype Diagnostics = Diagnostics(finishReason: Option<string>, promptTokens: Option<nat>, completionTokens: Option<nat>)

  datatype ChatError =
    | InvalidSchema
    | Transport(message: string, rejectsReasoning: bool)
    | NoContent(diagnostics: Diagnostics)
    | Unparsable(diagnostics: Diagnostics)
    | NotAnObject(diagnostics: Diagnostics)

  datatype Completion = Completion(value: Value, cost: real, diagnostics: Diagnostics)

  /** `reply` answers the last of the requests sent so far; `repair` reads content as JSON. */
  datatype Server = Server(reply: seq<Request> -> Result<Response, ChatError>, repair: string -> Option<Value>)

  datatype Limits = Limits(initial: nat, growth: nat, ceiling: nat, retries: nat)

  const SHIPPED := Limits(4096, 2, 16384, 2)
  const U32_MAX := 0xFFFF_FFFF

  // ----------------------------------------------------------- token budgets

  function Min(a: nat, b: nat): nat {
    if a < b then a else b
  }

  /** The next budget after a truncated answer; multiplication saturates at 32 bits. */
  function Grow(current: Option<nat>, limits: Limits): nat {
    var base := if current.Some? then current.value else limits.initial;
    Min(Min(base * limits.growth, U32_MAX), limits.ceiling)
  }

  /** The budget of attempt `i`. */
  function Budget(seed: Option<nat>, limits: Limits, i: nat): Option<nat> {
    if i == 0 then seed else Some(Grow(Budget(seed, limits, i - 1), limits))
  }

  function Power(g: nat, i: nat): nat {
    if i == 0 then 1 else g * Power(g, i - 1)
  }

  lemma CappedProduct(x: nat, g: nat, ceiling: nat)
    requires g >= 1
    ensures Min(Min(x, ceiling) * g, ceiling) == Min(x * g, ceiling)
  {
    if x >= ceiling {
      assert ceiling * g >= ceiling && x * g >= ceiling * g;
    }
  }

  /** Growth is geometric up to the ceiling: `min(seed * g^i, ceiling)` from the first retry on, and
      from the first attempt exactly when the seed is given and within the ceiling. */
  lemma {:induction false} BudgetIsGeometric(seed: Option<nat>, limits: Limits, i: nat)
    requires limits.growth >= 1 && limits.ceiling <= U32_MAX
    ensures var base := if seed.Some? then seed.value else limits.initial;
            && (i > 0 ==> Budget(seed, limits, i) == Some(Min(base * Power(limits.growth, i), limits.ceiling)))
            && (i == 0 ==> (Budget(seed, limits, i) == Some(Min(base * Power(limits.growth, i), limits.ceiling))
                            <==> seed.Some? && seed.value <= limits.ceiling))
  {
    var base := if seed.Some? then seed.value else limits.initial;
    var g := limits.growth;
    if i == 0 {
      assert base * Power(g, 0) == base;
    } else {
      BudgetIsGeometric(seed, limits, i - 1);
      var x := base * Power(g, i - 1);
      assert base * Power(g, i) == x * g by {
        Reassociate(base, g, Power(g, i - 1));
      }
      if i == 1 {
        assert x == base by {
          assert Power(g, 0) == 1;
        }
      } else {
        CappedProduct(x, g, limits.ceiling);
      }
    }
  }

  lemma Reassociate(a: nat, g: nat, p: nat)
    ensures a * (g * p) == a * p * g
  {
  }

  // ------------------------------------------------------------- one attempt

  datatype Attempt = Attempt(result: Result<Response, ChatError>, log: seq<Request>)

  predicate Rejected(e: ChatError) {
    e.Transport? && e.rejectsReasoning
  }

  /** The call with reasoning off, and one fallback without that field if the model insists on reasoning. */
  function AttemptAt(server: Server, log: seq<Request>, maxTokens: Option<nat>): Attempt {
    var primary := log + [Request(maxTokens, true)];
    match server.reply(primary)
    case Ok(response) => Attempt(Ok(response), primary)
    case Err(first) =>
      if !Rejected(first) then Attempt(Err(first), primary)
      else
        var fallback := primary + [Request(maxTokens, false)];
        match server.reply(fallback)
        case Ok(response) => Attempt(Ok(response), fallback)
        case Err(_) => Attempt(Err(first), fallback)
  }

  /** What the response says about itself. */
  function DiagnosticsOf(response: Response): Diagnostics {
    Diagnostics(if response.choices != [] then response.choices[0].finishReason else None,
                if response.usage.Some? then response.usage.value.promptTokens else None,
                if response.usage.Some? then response.usage.value.completionTokens else None)
  }

  predicate Truncated(response: Response) {
    DiagnosticsOf(response).finishReason == Some("length")
  }

  /** Content, then JSON, then an object, each failure carrying the diagnostics. */
  function Finish(server: Server, response: Response): Result<Completion, ChatError> {
    var diagnostics := DiagnosticsOf(response);
    var content := if response.choices != [] then response.choices[0].content else None;
    if content.None? || Texts.Trim(content.value) == "" then Err(NoContent(diagnostics))
    else
      match server.repair(content.value)
      case None => Err(Unparsable(diagnostics))
      case Some(value) =>
        if !value.Obj? then Err(NotAnObject(diagnostics))
        else
          var cost := if response.usage.Some? && response.usage.value.cost.Some? then response.usage.value.cost.value else 0.0;
          Ok(Completion(value, cost, diagnostics))
  }

  // ---------------------------------------------------------------- the loop

  datatype Run = Run(result: Result<Completion, ChatError>, log: seq<Request>)

  /** From attempt `i` on: retry while truncated and retries are left, then finish with what came. */
  function CompleteFrom(server: Server, limits: Limits, seed: Option<nat>, i: nat, log: seq<Request>): Run
    requires i <= limits.retries
    decreases limits.retries - i
  {
    var attempt := AttemptAt(server, log, Budget(seed, limits, i));
    match attempt.result
    case Err(e) => Run(Err(e), attempt.log)
    case Ok(response) =>
      if Truncated(response) && i < limits.retries then CompleteFrom(server, limits, seed, i + 1, attempt.log)
      else Run(Finish(server, response), attempt.log)
  }

  function Completed(server: Server, limits: Limits, seed: Option<nat>, schemaIsValid: bool): Run {
    if schemaIsValid then CompleteFrom(server, limits, seed, 0, []) else Run(Err(InvalidSchema), [])
  }

  /** `complete_one_attempt`. */
  method CompleteOneAttempt(server: Server, sent: seq<Request>, maxTokens: Option<nat>)
    returns (r: Result<Response, ChatError>, log: seq<Request>)
    ensures Attempt(r, log) == AttemptAt(server, sent, maxTokens)
  {
    log := sent + [Request(maxTokens, true)];
    r := server.reply(log);
    if r.Err? && Rejected(r.error) {
      log := log + [Request(maxTokens, false)];
      var second := server.reply(log);
      if second.Ok? {
        r := second;
      }
    }
  }

  /** `complete`: the loop always returns from inside. */
  method Complete(server: Server, limits: Limits, seed: Option<nat>, schemaIsValid: bool)
    returns (r: Result<Completion, ChatError>, log: seq<Request>)
    ensures Run(r, log) == Completed(server, limits, seed, schemaIsValid)
  {
    log := [];
    if !schemaIsValid {
      return Err(InvalidSchema), log;
    }
    var current := seed;
    for i := 0 to limits.retries + 1
      invariant i <= limits.retries
      invariant current == Budget(seed, limits, i)
      invariant CompleteFrom(server, limits, seed, i, log) == Completed(server, limits, seed, schemaIsValid)
    {
      var response;
      response, log := CompleteOneAttempt(server, log, current);
      if response.Err? {
        return Err(response.error), log;
      }
      var retriesLeft := i < limits.retries;
      if Truncated(response.value) && retriesLeft {
        current := Some(Grow(current, limits));
        continue;
      }
      return Finish(server, response.value), log;
    }
    assert false;
  }

  // ---------------------------------------------------------------- promises

  /** How many attempts a log holds: each begins with the call that has reasoning off. */
  function Attempts(log: seq<Request>): nat {
    if log == [] then 0
    else Attempts(log[..|log| - 1]) + if log[|log| - 1].reasoningOff then 1 else 0
  }

  /** The attempt a call belongs to. */
  function AttemptOf(log: seq<Request>, j: nat): int
    requires j < |log|
  {
    Attempts(log[..j + 1]) - 1
  }

  /** Every call carries the budget of its attempt. */
  predicate Budgeted(log: seq<Request>, seed: Option<nat>, limits: Limits) {
    forall j | 0 <= j < |log| ::
      AttemptOf(log, j) >= 0 && log[j].maxTokens == Budget(seed, limits, AttemptOf(log, j))
  }

  lemma Extend(log: seq<Request>, request: Request, seed: Option<nat>, limits: Limits, i: nat)
    requires Budgeted(log, seed, limits) && Attempts(log) + (if request.reasoningOff then 1 else 0) == i + 1
    requires request.maxTokens == Budget(seed, limits, i)
    ensures Budgeted(log + [request], seed, limits) && Attempts(log + [request]) == i + 1
  {
    var longer := log + [request];
    assert longer[..|longer| - 1] == log;
    hide Budget;
    forall j | 0 <= j < |longer|
      ensures AttemptOf(longer, j) >= 0 && longer[j].maxTokens == Budget(seed, limits, AttemptOf(longer, j))
    {
      if j < |log| {
        assert longer[..j + 1] == log[..j + 1];
        assert AttemptOf(longer, j) == AttemptOf(log, j);
      } else {
        assert longer[..j + 1] == longer;
      }
    }
  }

  /** The error of an attempt whose last call failed: the one that came first. */
  function FirstError(server: Server, log: seq<Request>, last: ChatError): ChatError
    requires log != []
  {
    if log[|log| - 1].reasoningOff then last
    else match server.reply(log[..|log| - 1]) case Err(first) => first case Ok(_) => last
  }

  lemma AttemptKeeps(server: Server, log: seq<Request>, seed: Option<nat>, limits: Limits, i: nat)
    requires Budgeted(log, seed, limits) && Attempts(log) == i && |log| <= 2 * i
    ensures var a := AttemptAt(server, log, Budget(seed, limits, i));
            && Budgeted(a.log, seed, limits) && Attempts(a.log) == i + 1 && |log| < |a.log| <= 2 * (i + 1)
            && match server.reply(a.log)
               case Ok(response) => a.result == Ok(response)
               case Err(last) => a.result == Err(FirstError(server, a.log, last))
  {
    hide Budget, Budgeted, Attempts;
    var max := Budget(seed, limits, i);
    var primary := log + [Request(max, true)];
    Extend(log, Request(max, true), seed, limits, i);
    Extend(primary, Request(max, false), seed, limits, i);
    assert (primary + [Request(max, false)])[..|primary|] == primary;
  }

  /** What a run promises: bounded calls, each with the budget of its attempt, and an answer that is
      the verdict on the last response, or the first error of the attempt when its last call got none. */
  predicate Keeps(server: Server, limits: Limits, seed: Option<nat>, run: Run) {
    && Budgeted(run.log, seed, limits)
    && 1 <= Attempts(run.log) <= limits.retries + 1 && 1 <= |run.log| <= 2 * Attempts(run.log)
    && match server.reply(run.log)
       case Ok(response) => run.result == Finish(server, response)
       case Err(last) => run.result == Err(FirstError(server, run.log, last))
  }

  lemma {:induction false} CompleteKeeps(server: Server, limits: Limits, seed: Option<nat>, i: nat, log: seq<Request>)
    requires i <= limits.retries && Budgeted(log, seed, limits) && Attempts(log) == i && |log| <= 2 * i
    ensures Keeps(server, limits, seed, CompleteFrom(server, limits, seed, i, log))
    decreases limits.retries - i
  {
    AttemptKeeps(server, log, seed, limits, i);
    hide Budget, Budgeted, Attempts, AttemptAt, Finish, Truncated;
    var a := AttemptAt(server, log, Budget(seed, limits, i));
    if a.result.Ok? && Truncated(a.result.value) && i < limits.retries {
      CompleteKeeps(server, limits, seed, i + 1, a.log);
    }
  }

  /** Every server: the run keeps its promises, and success means a JSON object. */
  lemma EveryRunKeeps(server: Server, limits: Limits, seed: Option<nat>)
    ensures var run := Completed(server, limits, seed, true);
            && Keeps(server, limits, seed, run)
            && |run.log| <= 2 * (limits.retries + 1)
            && (run.result.Ok? ==> run.result.value.value.Obj? && server.reply(run.log).Ok?
                                   && run.result.value.diagnostics == DiagnosticsOf(server.reply(run.log).value))
  {
    CompleteKeeps(server, limits, seed, 0, []);
  }

  /** A run whose last answer is truncated has used every retry. */
  lemma {:induction false} TruncatedMeansExhausted(server: Server, limits: Limits, seed: Option<nat>, i: nat, log: seq<Request>)
    requires i <= limits.retries && Budgeted(log, seed, limits) && Attempts(log) == i && |log| <= 2 * i
    ensures var run := CompleteFrom(server, limits, seed, i, log);
            match server.reply(run.log)
            case Ok(response) => Truncated(response) ==> Attempts(run.log) == limits.retries + 1
            case Err(_) => true
    decreases limits.retries - i
  {
    AttemptKeeps(server, log, seed, limits, i);
    hide Budget, Budgeted, Attempts, AttemptAt, Finish, Truncated;
    var a := AttemptAt(server, log, Budget(seed, limits, i));
    if a.result.Ok? && Truncated(a.result.value) && i < limits.retries {
      TruncatedMeansExhausted(server, limits, seed, i + 1, a.log);
    }
  }

  // ------------------------------------------------------- why a call is made

  /** The response says it stopped for want of tokens. */
  predicate WasCut(response: Response) {
    response.choices != [] && response.choices[0].finishReason == Some("length")
  }

  /** The model insists on reasoning. */
  predicate Insists(reply: Result<Response, ChatError>) {
    reply.Err? && reply.error.Transport? && reply.error.rejectsReasoning
  }

  /** What the reply to a call must have been for `next` to follow it: a truncated answer for another
      attempt, an insistence on reasoning for the fallback. */
  predicate CallsFor(reply: Result<Response, ChatError>, call: Request, next: Request) {
    if next.reasoningOff then reply.Ok? && WasCut(reply.value)
    else Insists(reply) && call.reasoningOff && next.maxTokens == call.maxTokens
  }

  predicate Justified(server: Server, log: seq<Request>) {
    && (log != [] ==> log[0].reasoningOff)
    && forall j | 0 <= j < |log| - 1 :: CallsFor(server.reply(log[..j + 1]), log[j], log[j + 1])
  }

  lemma JustifiedNext(server: Server, log: seq<Request>, next: Request)
    requires Justified(server, log)
    requires if log == [] then next.reasoningOff else CallsFor(server.reply(log), log[|log| - 1], next)
    ensures Justified(server, log + [next])
  {
    var longer := log + [next];
    hide CallsFor;
    forall j | 0 <= j < |longer| - 1 ensures CallsFor(server.reply(longer[..j + 1]), longer[j], longer[j + 1]) {
      if j < |log| - 1 {
        assert longer[..j + 1] == log[..j + 1];
      } else {
        assert longer[..j + 1] == log;
      }
    }
  }

  lemma AttemptIsJustified(server: Server, log: seq<Request>, max: Option<nat>)
    requires Justified(server, log)
    requires log != [] ==> server.reply(log).Ok? && WasCut(server.reply(log).value)
    ensures var a := AttemptAt(server, log, max);
            && a.log != [] && Justified(server, a.log)
            && (a.log[|a.log| - 1].reasoningOff ==> !Insists(server.reply(a.log)))
            && (a.result.Ok? ==> server.reply(a.log) == a.result)
            && (a.result.Err? ==> server.reply(a.log).Err?)
  {
    hide Justified;
    var primary := log + [Request(max, true)];
    JustifiedNext(server, log, Request(max, true));
    if Insists(server.reply(primary)) {
      JustifiedNext(server, primary, Request(max, false));
    }
  }

  lemma {:induction false} CallsAreJustified(server: Server, limits: Limits, seed: Option<nat>, i: nat, log: seq<Request>)
    requires i <= limits.retries && Justified(server, log)
    requires log != [] ==> server.reply(log).Ok? && WasCut(server.reply(log).value)
    ensures var run := CompleteFrom(server, limits, seed, i, log);
            && run.log != [] && Justified(server, run.log)
            && (run.log[|run.log| - 1].reasoningOff ==> !Insists(server.reply(run.log)))
    decreases limits.retries - i
  {
    hide Justified, Budget, AttemptAt, Finish;
    var a := AttemptAt(server, log, Budget(seed, limits, i));
    AttemptIsJustified(server, log, Budget(seed, limits, i));
    if a.result.Ok? && Truncated(a.result.value) && i < limits.retries {
      CallsAreJustified(server, limits, seed, i + 1, a.log);
    }
  }

  /** Every server: each call after the first was called for by the reply before it, so the first answer
      that is not truncated and the first error that is no insistence on reasoning end the run; and the
      run ends no earlier. */
  lemma EveryCallHasItsReason(server: Server, limits: Limits, seed: Option<nat>)
    ensures var run := Completed(server, limits, seed, true);
            var last := server.reply(run.log);
            && run.log != [] && Justified(server, run.log)
            && (last.Ok? && WasCut(last.value) ==> Attempts(run.log) == limits.retries + 1)
            && (run.log[|run.log| - 1].reasoningOff ==> !Insists(last))
    ensures Completed(server, limits, seed, false) == Run(Err(InvalidSchema), [])
  {
    CallsAreJustified(server, limits, seed, 0, []);
    TruncatedMeansExhausted(server, limits, seed, 0, []);
  }

  // ------------------------------------------------------------- the answer

  predicate Describes(d: Diagnostics, response: Response) {
    && (response.choices == [] ==> d.finishReason == None)
    && (response.choices != [] ==> d.finishReason == response.choices[0].finishReason)
    && (response.usage.None? ==> d.promptTokens == None && d.completionTokens == None)
    && (response.usage.Some? ==> d.promptTokens == response.usage.value.promptTokens
                                 && d.completionTokens == response.usage.value.completionTokens)
  }

  /** There is something to read in the response, and it is `text`. */
  predicate Says(response: Response, text: string) {
    response.choices != [] && response.choices[0].content == Some(text) && Texts.Trim(text) != ""
  }

  /** Every server: the answer is what the last response says, read as an object, with the response's own
      cost and diagnostics; or the error names what was missing, with the same diagnostics. */
  lemma AnswerIsWhatWasSaid(server: Server, limits: Limits, seed: Option<nat>)
    requires server.reply(Completed(server, limits, seed, true).log).Ok?
    ensures var run := Completed(server, limits, seed, true);
            var response := server.reply(run.log).value;
            match run.result
            case Ok(answer) =>
              && answer.value.Obj? && Describes(answer.diagnostics, response)
              && (exists text :: Says(response, text) && server.repair(text) == Some(answer.value))
              && (forall cost | response.usage.Some? && response.usage.value.cost == Some(cost) :: answer.cost == cost)
              && (response.usage.None? || response.usage.value.cost.None? ==> answer.cost == 0.0)
            case Err(NoContent(d)) => Describes(d, response) && forall text :: !Says(response, text)
            case Err(Unparsable(d)) =>
              Describes(d, response) && exists text :: Says(response, text) && server.repair(text) == None
            case Err(NotAnObject(d)) =>
              && Describes(d, response)
              && exists text :: Says(response, text) && server.repair(text).Some? && !server.repair(text).value.Obj?
            case Err(_) => false
  {
    var run := Completed(server, limits, seed, true);
    var response := server.reply(run.log).value;
    CompleteKeeps(server, limits, seed, 0, []);
    hide CompleteFrom;
    if response.choices != [] && response.choices[0].content.Some? {
      var text := response.choices[0].content.value;
      assert Texts.Trim(text) != "" ==> Says(response, text);
    }
  }

  function ContentOf(response: Response): Option<string> {
    if response.choices != [] then response.choices[0].content else None
  }

  /** Nothing to read, nothing that reads as JSON, or JSON that is no object. */
  predicate Unusable(server: Server, response: Response) {
    match ContentOf(response)
    case None => true
    case Some(text) =>
      Texts.Trim(text) == "" ||
      match server.repair(text) case None => true case Some(value) => !value.Obj?
  }

  /** Every server: a last answer ends in an error if and only if its content is unusable. That it is
      truncated plays no part, although the documentation says it does; it only tells that every retry was used. */
  lemma ErrorIff(server: Server, limits: Limits, seed: Option<nat>)
    ensures var run := Completed(server, limits, seed, true);
            match server.reply(run.log)
            case Ok(response) =>
              && (run.result.Err? <==> Unusable(server, response))
              && (Truncated(response) ==> Attempts(run.log) == limits.retries + 1)
              && (Truncated(response) && run.result.Ok? ==> run.result.value.diagnostics.finishReason == Some("length"))
            case Err(_) => run.result.Err?
  {
    CompleteKeeps(server, limits, seed, 0, []);
    TruncatedMeansExhausted(server, limits, seed, 0, []);
  }

  /** The documented error really is missing: for every readable text and every number of retries there
      is a server that truncates each answer and a run that ends in success. */
  lemma TruncatedAnswerCompletes(limits: Limits, seed: Option<nat>, text: string, value: Value)
    requires Texts.Trim(text) != "" && value.Obj?
    ensures var response := Response([Choice(Some(text), Some("length"))], None);
            var server := Server(_ => Ok(response), _ => Some(value));
            var run := Completed(server, limits, seed, true);
            && Truncated(response) && server.reply(run.log) == Ok(response)
            && run.result.Ok? && Attempts(run.log) == limits.retries + 1
  {
    var response := Response([Choice(Some(text), Some("length"))], None);
    var server := Server(_ => Ok(response), _ => Some(value));
    ErrorIff(server, limits, seed);
  }
}
