/**
  Polling a video task that was charged in advance: success re-bills it by the
  tokens it used, failure refunds it.
*/
module VideoTask {
  import opened Wrappers

  datatype Status = Submitted | Queued | InProgress | Success | Failure | Other

  const FINISHED := "100%"

  datatype Task = Task(status: Status, progress: string, quota: int, startTime: int, finishTime: int, failReason: string)

  /** What the upstream answers. */
  datatype Answer = Reported(status: Status) | EmptyStatus

  /**
    One poll: the answer, the price per token if the model is billed by tokens,
    and which of the calls that change the account or the row fail.
   */
  datatype Poll = Poll(answer: Answer, progress: string, url: string, reason: string, tokens: int, rate: Option<real>, now: int,
                       rebillFails: bool, writeFails: bool, refundFails: bool)

  /** Go's conversion to an integer: towards zero. */
  function Truncated(x: real): (n: int)
    ensures x >= 0.0 ==> 0 <= n && n as real <= x < n as real + 1.0
    ensures x < 0.0 ==> n <= 0 && n as real - 1.0 < x <= n as real
  {
    if x >= 0.0 then x.Floor else -((-x).Floor)
  }

  /** An empty status is a failure. */
  function Outcome(p: Poll): Status {
    if p.answer.EmptyStatus? then Failure else p.answer.status
  }

  /** The charge after a successful task has been re-billed. */
  function Rebilled(quota: int, p: Poll): int {
    if p.tokens > 0 && p.rate.Some? && !p.rebillFails then Truncated(p.tokens as real * p.rate.value) else quota
  }

  predicate IsDataUrl(url: string) {
    |url| > 5 && url[..5] == "data:"
  }

  /** The row after a poll with a known status. */
  function NewRow(row: Task, p: Poll): Task {
    var progress := match Outcome(p)
      case Submitted => "10%"
      case Queued => "20%"
      case InProgress => "30%"
      case _ => FINISHED;
    var shown := if Outcome(p) != Failure && p.progress != "" then p.progress else progress;
    match Outcome(p)
    case InProgress => row.(status := InProgress, progress := shown, startTime := if row.startTime == 0 then p.now else row.startTime)
    case Success =>
      row.(status := Success, progress := shown, quota := Rebilled(row.quota, p),
           finishTime := if row.finishTime == 0 then p.now else row.finishTime,
           failReason := if IsDataUrl(p.url) then row.failReason else p.url)
    case Failure =>
      row.(status := Failure, progress := FINISHED, finishTime := if row.finishTime == 0 then p.now else row.finishTime,
           failReason := if p.answer.EmptyStatus? then "upstream returned empty status" else p.reason)
    case s => row.(status := s, progress := shown)
  }

  datatype Books = Books(balance: int, row: Task) {
    /** What the user holds together with what the task still owes them a result for. */
    function Worth(): int {
      balance + if row.status == Failure then 0 else row.quota
    }
  }

  /** The change to the balance that re-billing makes. */
  function RebillingCost(row: Task, p: Poll): int {
    if Outcome(p) == Success then Rebilled(row.quota, p) - row.quota else 0
  }

  predicate NewlyFailed(row: Task, p: Poll) {
    Outcome(p) == Failure && row.status != Failure
  }

  function Next(b: Books, p: Poll): Books {
    if Outcome(p) == Other then b
    else if p.writeFails then Books(b.balance - RebillingCost(b.row, p), b.row)
    else
      var refund := if NewlyFailed(b.row, p) && !p.refundFails then b.row.quota else 0;
      Books(b.balance - RebillingCost(b.row, p) + refund, NewRow(b.row, p))
  }

  /** The whole part of a charge. */
  predicate IsWholePart(x: real, n: int) {
    if x >= 0.0 then n as real <= x < n as real + 1.0 else n as real - 1.0 < x <= n as real
  }

  /**
    What a success costs: the tokens times the rate, in whole units, if there are
    tokens, a rate and a call that works, and otherwise what it cost before; and
    the balance moves by the difference.
   */
  predicate RebillsExactly(b: Books, p: Poll, b': Books) {
    && (if p.tokens > 0 && p.rate.Some? && !p.rebillFails then IsWholePart(p.tokens as real * p.rate.value, b'.row.quota)
        else b'.row.quota == b.row.quota)
    && b'.balance == b.balance + b.row.quota - b'.row.quota && b'.row.status == Success
    && b'.row.failReason == (if "data:" < p.url then b.row.failReason else p.url)
    && b'.row.progress == (if p.progress == "" then "100%" else p.progress)
    && b'.row.finishTime == if b.row.finishTime == 0 then p.now else b.row.finishTime
  }

  /** What a failure does, reported or for want of a status: the first one gives the charge back, if its call works. */
  predicate RefundsExactly(b: Books, p: Poll, b': Books) {
    && b'.row.status == Failure && b'.row.quota == b.row.quota && b'.row.progress == "100%"
    && b'.row.failReason == (if p.answer.EmptyStatus? then "upstream returned empty status" else p.reason)
    && b'.row.finishTime == (if b.row.finishTime == 0 then p.now else b.row.finishTime)
    && b'.balance == if b.row.status != Failure && !p.refundFails then b.balance + b.row.quota else b.balance
  }

  class Account {
    var balance: int
    var row: Task

    constructor (balance: int, row: Task)
      ensures Value() == Books(balance, row)
    {
      this.balance, this.row := balance, row;
    }

    function Value(): Books
      reads this
    {
      Books(balance, row)
    }

    /** updateVideoSingleTask, once the upstream has answered; true unless the status is unknown */
    method UpdateTask(p: Poll) returns (known: bool)
      modifies this
      ensures Value() == Next(old(Value()), p)
      ensures known <==> p.answer != Reported(Other)
    {
      var task, shouldRefund := row, false;
      var quota, preStatus, resultProgress := task.quota, task.status, p.progress;
      task := task.(status := Outcome(p));
      match task.status {
        case Submitted =>
          task := task.(progress := "10%");
        case Queued =>
          task := task.(progress := "20%");
        case InProgress =>
          task := task.(progress := "30%");
          if task.startTime == 0 {
            task := task.(startTime := p.now);
          }
        case Success =>
          task := task.(progress := FINISHED);
          if task.finishTime == 0 {
            task := task.(finishTime := p.now);
          }
          if !IsDataUrl(p.url) {
            task := task.(failReason := p.url);
          }
          if p.tokens > 0 && p.rate.Some? {
            var newQuota := Rebill(task.quota, Truncated(p.tokens as real * p.rate.value), p.rebillFails);
            task := task.(quota := newQuota);
          }
        case Failure =>
          task := task.(progress := FINISHED);
          if task.finishTime == 0 {
            task := task.(finishTime := p.now);
          }
          task := task.(failReason := if p.answer.EmptyStatus? then "upstream returned empty status" else p.reason);
          resultProgress := FINISHED;
          shouldRefund := quota != 0 && preStatus != Failure;
        case Other =>
          return false;
      }
      if resultProgress != "" {
        task := task.(progress := resultProgress);
      }
      if p.writeFails {
        shouldRefund := false;
      } else {
        row := task;
      }
      if shouldRefund && !p.refundFails {
        balance := balance + quota;
      }
      known := true;
    }

    /** Charges or returns the difference; a call that fails leaves the charge as it was. */
    method Rebill(charged: int, actual: int, fails: bool) returns (quota: int)
      modifies `balance
      ensures quota == (if fails then charged else actual) && balance == old(balance) - (quota - charged)
    {
      quota := charged;
      var delta := actual - charged;
      if delta > 0 {
        if !fails {
          balance := balance - delta;
          quota := actual;
        }
      } else if delta < 0 {
        if !fails {
          balance := balance + -delta;
          quota := actual;
        }
      }
    }
  }

  // ---- What one poll does

  lemma SuccessIsRebilled(b: Books, p: Poll)
    requires p.answer == Reported(Success) && !p.writeFails
    ensures RebillsExactly(b, p, Next(b, p))
  {
  }

  lemma FailureIsRefunded(b: Books, p: Poll)
    requires p.answer in {Reported(Failure), EmptyStatus} && !p.writeFails
    ensures RefundsExactly(b, p, Next(b, p))
  {
  }

  /** Any other answer leaves the charge and the balance alone; an unknown status, or a write that fails, leaves the row. */
  lemma OthersChargeNothing(b: Books, p: Poll)
    requires p.answer !in {Reported(Success), Reported(Failure), EmptyStatus}
    ensures Next(b, p).balance == b.balance && Next(b, p).row.quota == b.row.quota
    ensures Next(b, p).row.status == if p.writeFails || p.answer == Reported(Other) then b.row.status else p.answer.status
    ensures p.writeFails || p.answer == Reported(Other) ==> Next(b, p).row == b.row
  {
  }

  // ---- Conservation

  /** The polls that create or destroy quota. */
  predicate Leaks(b: Books, p: Poll) {
    Outcome(p) != Other
    && if p.writeFails then RebillingCost(b.row, p) != 0
       else b.row.quota != 0 && if Outcome(p) == Failure then NewlyFailed(b.row, p) && p.refundFails else b.row.status == Failure
  }

  /** Balance plus outstanding charge is kept by every poll but those. */
  lemma ConservedExactly(b: Books, p: Poll)
    ensures Next(b, p).Worth() == b.Worth() <==> !Leaks(b, p)
  {
  }

  function After(b: Books, polls: seq<Poll>): Books {
    if polls == [] then b else Next(After(b, polls[..|polls| - 1]), polls[|polls| - 1])
  }

  /** Rows are written and refunds arrive; re-billing calls may fail. */
  predicate Reliable(polls: seq<Poll>) {
    forall i | 0 <= i < |polls| :: !polls[i].writeFails && !polls[i].refundFails
  }

  /** A task that has failed is not reported otherwise later. */
  predicate FailureAbsorbing(b: Books, polls: seq<Poll>) {
    && (b.row.status == Failure ==> forall i | 0 <= i < |polls| :: Outcome(polls[i]) in {Failure, Other})
    && (forall i, j | 0 <= i < j < |polls| && Outcome(polls[i]) == Failure :: Outcome(polls[j]) in {Failure, Other})
  }

  lemma {:induction false} FailedBecauseReported(b: Books, polls: seq<Poll>)
    requires Reliable(polls) && FailureAbsorbing(b, polls)
    ensures After(b, polls).row.status == Failure <==>
              b.row.status == Failure || exists i | 0 <= i < |polls| :: Outcome(polls[i]) == Failure
  {
    if polls != [] {
      var before, last := polls[..|polls| - 1], polls[|polls| - 1];
      FailedBecauseReported(b, before);
      assert forall i | 0 <= i < |before| :: before[i] == polls[i];
      if Outcome(last) == Failure {
        assert Outcome(polls[|polls| - 1]) == Failure;
      }
    }
  }

  /** Over every such sequence of polls the balance plus the outstanding charge stays constant. */
  lemma {:induction false} RunConserves(b: Books, polls: seq<Poll>)
    requires Reliable(polls) && FailureAbsorbing(b, polls)
    ensures After(b, polls).Worth() == b.Worth()
  {
    if polls != [] {
      var before, last := polls[..|polls| - 1], polls[|polls| - 1];
      assert forall i | 0 <= i < |before| :: before[i] == polls[i];
      RunConserves(b, before);
      FailedBecauseReported(b, before);
      ConservedExactly(After(b, before), last);
    }
  }

  /** A run that reports a failure gives back exactly what the task cost, re-billing included. */
  lemma FailureRefundsAll(b: Books, polls: seq<Poll>)
    requires Reliable(polls) && FailureAbsorbing(b, polls) && b.row.status != Failure
    requires exists i | 0 <= i < |polls| :: Outcome(polls[i]) == Failure
    ensures After(b, polls).balance == b.balance + b.row.quota
  {
    RunConserves(b, polls);
    FailedBecauseReported(b, polls);
  }

  /** Once failed, the balance no longer moves. */
  lemma NoSecondRefund(b: Books, polls: seq<Poll>)
    requires Reliable(polls) && FailureAbsorbing(b, polls) && b.row.status == Failure
    ensures After(b, polls).balance == b.balance
  {
    RunConserves(b, polls);
    FailedBecauseReported(b, polls);
  }

  /** Polling a success again, at any later time, changes nothing. */
  lemma SuccessIsStable(b: Books, p: Poll, later: int)
    requires Outcome(p) == Success && !p.rebillFails && !p.writeFails && p.now != 0
    ensures Next(Next(b, p), p.(now := later)) == Next(b, p)
  {
  }
}
