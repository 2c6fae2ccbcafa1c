/** Webhook delivery: each dispatched event becomes one task per subscribed webhook, a failed
    attempt is recorded and retried, and the webhook counts its failures in a row. */
module Webhooks {

  type WebhookId = nat
  type TaskId = nat

  const MAX_RETRIES: nat := 5

  datatype Webhook = Webhook(tenant: nat, events: set<string>, active: bool, failures: nat)

  datatype Status = Delivered | Failed

  datatype Delivery = Delivery(webhook: WebhookId, task: TaskId, attempt: nat, status: Status)

  /** A queued attempt of a task; `retries` earlier ones failed. */
  datatype Job = Job(webhook: WebhookId, retries: nat)

  datatype State = State(
    webhooks: map<WebhookId, Webhook>, deliveries: seq<Delivery>, queue: map<TaskId, Job>, nextTask: TaskId)

  /** How one attempt goes: the endpoint accepts, or answers with an error or not at all; or
      the database fails and the attempt is rolled back. */
  datatype Outcome = Accepted | Rejected | Aborted

  datatype Event =
    | Enqueue(webhook: WebhookId)
    | Attempt(task: TaskId, outcome: Outcome)
    | SetActive(webhook: WebhookId, active: bool)

  function Recorded(s: State, task: TaskId, status: Status): State
    requires task in s.queue && s.queue[task].webhook in s.webhooks
  {
    var job := s.queue[task];
    var hook := s.webhooks[job.webhook];
    s.(deliveries := s.deliveries + [Delivery(job.webhook, task, job.retries + 1, status)],
       webhooks := s.webhooks[job.webhook := hook.(failures := if status.Delivered? then 0 else hook.failures + 1)])
  }

  /** One run of `deliver_webhook`. */
  function Attempted(s: State, task: TaskId, outcome: Outcome): State {
    if task !in s.queue then s
    else
      var job := s.queue[task];
      var finished := s.(queue := s.queue - {task});
      if job.webhook !in s.webhooks || !s.webhooks[job.webhook].active || outcome.Aborted? then finished
      else if outcome.Accepted? then Recorded(s, task, Delivered).(queue := finished.queue)
      else
        Recorded(s, task, Failed).(
          queue := if job.retries < MAX_RETRIES
                   then s.queue[task := job.(retries := job.retries + 1)] else finished.queue)
  }

  function Step(s: State, e: Event): State {
    match e
    case Enqueue(w) => s.(queue := s.queue[s.nextTask := Job(w, 0)], nextTask := s.nextTask + 1)
    case Attempt(task, outcome) => Attempted(s, task, outcome)
    case SetActive(w, active) =>
      if w in s.webhooks then s.(webhooks := s.webhooks[w := s.webhooks[w].(active := active)]) else s
  }

  function Run(s: State, es: seq<Event>): State {
    if es == [] then s else Step(Run(s, es[..|es| - 1]), es[|es| - 1])
  }

  class Worker {
    var webhooks: map<WebhookId, Webhook>
    var deliveries: seq<Delivery>
    var queue: map<TaskId, Job>
    var nextTask: TaskId

    constructor (hooks: map<WebhookId, Webhook>)
      ensures Now() == State(hooks, [], map[], 0)
    {
      webhooks, deliveries, queue, nextTask := hooks, [], map[], 0;
    }

    ghost function Now(): State
      reads this
    {
      State(webhooks, deliveries, queue, nextTask)
    }

    method DeliverWebhook(task: TaskId, outcome: Outcome)
      requires task in queue
      modifies this
      ensures Now() == Attempted(old(Now()), task, outcome)
    {
      var job := queue[task];
      queue := queue - {task};
      if job.webhook !in webhooks || !webhooks[job.webhook].active { return; }
      var hook := webhooks[job.webhook];
      var delivery := Delivery(job.webhook, task, job.retries + 1, Failed);
      match outcome
      case Aborted =>
      case Accepted =>
        delivery := delivery.(status := Delivered);
        webhooks := webhooks[job.webhook := hook.(failures := 0)];
        deliveries := deliveries + [delivery];
      case Rejected =>
        webhooks := webhooks[job.webhook := hook.(failures := hook.failures + 1)];
        deliveries := deliveries + [delivery];
        if job.retries < MAX_RETRIES {
          queue := queue[task := Job(job.webhook, job.retries + 1)];
          assert queue == old(queue)[task := job.(retries := job.retries + 1)];
        }
    }

    /** Queues one task for every active webhook of the tenant that subscribes to the event,
        and nothing else. */
    method DispatchEvent(tenant: nat, event: string)
      requires forall t :: t in queue ==> t < nextTask
      modifies this
      ensures webhooks == old(webhooks) && deliveries == old(deliveries)
      ensures forall t :: t in old(queue) ==> t in queue && queue[t] == old(queue)[t]
      ensures forall t :: t in queue && t !in old(queue) ==>
        && old(nextTask) <= t < nextTask && queue[t].retries == 0 && queue[t].webhook in webhooks
        && var hook := webhooks[queue[t].webhook];
           hook.tenant == tenant && hook.active && event in hook.events
      ensures forall w ::
        w in webhooks && webhooks[w].tenant == tenant && webhooks[w].active && event in webhooks[w].events
        ==> exists t :: t in queue && t !in old(queue) && queue[t].webhook == w
      ensures forall t, u :: t in queue && u in queue && t !in old(queue) && u !in old(queue) && t != u
                             ==> queue[t].webhook != queue[u].webhook
    {
      var rest := set w | w in webhooks && Subscribed(webhooks, tenant, event, w);
      while rest != {}
        invariant webhooks == old(webhooks) && deliveries == old(deliveries) && old(nextTask) <= nextTask
        invariant forall t :: t in queue ==> t < nextTask
        invariant forall t :: t in old(queue) ==> t in queue && queue[t] == old(queue)[t]
        invariant forall w :: w in rest ==> Subscribed(webhooks, tenant, event, w)
        invariant forall t :: t in queue && t !in old(queue) ==>
          old(nextTask) <= t && queue[t].retries == 0 && queue[t].webhook !in rest
          && Subscribed(webhooks, tenant, event, queue[t].webhook)
        invariant forall w :: Subscribed(webhooks, tenant, event, w) ==>
          w in rest || exists t :: t in queue && t !in old(queue) && queue[t].webhook == w
        invariant forall t, u :: t in queue && u in queue && t !in old(queue) && u !in old(queue) && t != u
                                 ==> queue[t].webhook != queue[u].webhook
        decreases rest
      {
        var w :| w in rest;
        ghost var before := queue;
        queue := queue[nextTask := Job(w, 0)];
        nextTask := nextTask + 1;
        rest := rest - {w};
        assert forall t :: t in before ==> queue[t] == before[t];
        assert queue[nextTask - 1].webhook == w;
      }
      forall w | w in webhooks && webhooks[w].tenant == tenant && webhooks[w].active && event in webhooks[w].events
        ensures exists t :: t in queue && t !in old(queue) && queue[t].webhook == w
      {
        assert Subscribed(webhooks, tenant, event, w);
      }
    }
  }

  predicate Subscribed(webhooks: map<WebhookId, Webhook>, tenant: nat, event: string, w: WebhookId) {
    w in webhooks && webhooks[w].tenant == tenant && webhooks[w].active && event in webhooks[w].events
  }

  // --- Runs ----------------------------------------------------------------------------

  /** The recorded attempts of one task, in order. */
  function AttemptsOf(deliveries: seq<Delivery>, task: TaskId): seq<Delivery> {
    if deliveries == [] then []
    else
      var before, last := AttemptsOf(deliveries[..|deliveries| - 1], task), deliveries[|deliveries| - 1];
      if last.task == task then before + [last] else before
  }

  /** Failed attempts at the webhook since the last delivered one. */
  function FailuresSince(deliveries: seq<Delivery>, w: WebhookId): nat {
    if deliveries == [] then 0
    else
      var before, last := FailuresSince(deliveries[..|deliveries| - 1], w), deliveries[|deliveries| - 1];
      if last.webhook != w then before else if last.status.Delivered? then 0 else before + 1
  }

  /** Attempts numbered from 1, at most six, all failed but perhaps the last. */
  ghost predicate WellNumbered(attempts: seq<Delivery>) {
    && |attempts| <= 6
    && (forall i :: 0 <= i < |attempts| ==> attempts[i].attempt == i + 1)
    && (forall i :: 0 <= i < |attempts| - 1 ==> attempts[i].status == Failed)
  }

  ghost predicate TaskSound(s: State, task: TaskId) {
    var attempts := AttemptsOf(s.deliveries, task);
    && WellNumbered(attempts)
    && (task >= s.nextTask ==> attempts == [] && task !in s.queue)
    && (task in s.queue ==>
          && s.queue[task].retries == |attempts| <= MAX_RETRIES
          && (attempts != [] ==> attempts[|attempts| - 1].status == Failed))
  }

  lemma StepKeepsTask(s: State, e: Event, task: TaskId)
    requires TaskSound(s, task)
    ensures TaskSound(Step(s, e), task)
  {
    var s' := Step(s, e);
    if |s'.deliveries| > |s.deliveries| {
      assert s'.deliveries[..|s'.deliveries| - 1] == s.deliveries;
    }
  }

  /** Over any interleaving of tasks: each task makes at most six attempts, numbered
      consecutively from 1, and only its last can be a delivery. */
  lemma {:induction false} AttemptsAreBounded(hooks: map<WebhookId, Webhook>, es: seq<Event>, task: TaskId)
    ensures var s := Run(State(hooks, [], map[], 0), es);
      WellNumbered(AttemptsOf(s.deliveries, task)) && TaskSound(s, task)
  {
    if es != [] {
      AttemptsAreBounded(hooks, es[..|es| - 1], task);
      StepKeepsTask(Run(State(hooks, [], map[], 0), es[..|es| - 1]), es[|es| - 1], task);
    }
  }

  /** A webhook's counter is the number of attempts at it that failed since the last one
      delivered. */
  lemma {:induction false} CounterCountsFailuresInARow(hooks: map<WebhookId, Webhook>, es: seq<Event>, w: WebhookId)
    requires w in hooks && hooks[w].failures == 0
    ensures var s := Run(State(hooks, [], map[], 0), es);
      w in s.webhooks && s.webhooks[w].failures == FailuresSince(s.deliveries, w)
  {
    if es != [] {
      var s := Run(State(hooks, [], map[], 0), es[..|es| - 1]);
      CounterCountsFailuresInARow(hooks, es[..|es| - 1], w);
      var s' := Step(s, es[|es| - 1]);
      if |s'.deliveries| > |s.deliveries| {
        assert s'.deliveries[..|s'.deliveries| - 1] == s.deliveries;
      }
    }
  }

  // --- No attempt is forgotten -----------------------------------------------------------------

  predicate IsActive(s: State, w: WebhookId) { w in s.webhooks && s.webhooks[w].active }

  /** One attempt at an active webhook that answers is recorded under the next number, and counted;
      otherwise nothing is. It leaves the queue unless it is rejected and may be tried again; other
      tasks wait as before. */
  lemma AttemptIsRecorded(s: State, task: TaskId, outcome: Outcome)
    requires task in s.queue
    ensures var s', w := Attempted(s, task, outcome), s.queue[task].webhook;
      if IsActive(s, w) && outcome != Aborted then
        && s'.deliveries == s.deliveries + [Delivery(w, task, s.queue[task].retries + 1,
                                                     if outcome == Accepted then Delivered else Failed)]
        && s'.webhooks == s.webhooks[w := s.webhooks[w].(
             failures := if outcome == Accepted then 0 else s.webhooks[w].failures + 1)]
      else s'.deliveries == s.deliveries && s'.webhooks == s.webhooks
    ensures var s', w := Attempted(s, task, outcome), s.queue[task].webhook;
      && s'.nextTask == s.nextTask
      && (task in s'.queue <==> IsActive(s, w) && outcome == Rejected && s.queue[task].retries < 5)
      && (forall other :: other != task ==> (other in s'.queue <==> other in s.queue))
      && (forall other :: other != task && other in s.queue ==> s'.queue[other] == s.queue[other])
  {
  }

  /** A rejected attempt at an active webhook leaves the job queued for the next, until six are
      recorded. */
  lemma RejectedIsRetried(s: State, task: TaskId)
    requires TaskSound(s, task) && task in s.queue && IsActive(s, s.queue[task].webhook)
    ensures var s' := Attempted(s, task, Rejected);
      var attempts, attempts' := AttemptsOf(s.deliveries, task), AttemptsOf(s'.deliveries, task);
      && |attempts'| == |attempts| + 1 && attempts'[|attempts|].status == Failed
      && (task in s'.queue <==> |attempts'| < 6)
      && (task in s'.queue ==> s'.queue[task] == Job(s.queue[task].webhook, s.queue[task].retries + 1))
  {
    var s' := Attempted(s, task, Rejected);
    assert s'.deliveries[..|s'.deliveries| - 1] == s.deliveries;
  }

  /** Event `i` was an attempt of the job that the database undid or whose webhook was not there to
      be called. */
  ghost predicate CutShortAt(hooks: map<WebhookId, Webhook>, es: seq<Event>, i: nat, task: TaskId) {
    i < |es| && es[i].Attempt? && es[i].task == task &&
    var s := Run(State(hooks, [], map[], 0), es[..i]);
    task in s.queue && (es[i].outcome == Aborted || !IsActive(s, s.queue[task].webhook))
  }

  ghost predicate IsDone(hooks: map<WebhookId, Webhook>, es: seq<Event>, task: TaskId) {
    var attempts := AttemptsOf(Run(State(hooks, [], map[], 0), es).deliveries, task);
    || (attempts != [] && attempts[|attempts| - 1].status == Delivered)
    || |attempts| == 6
    || exists i: nat :: CutShortAt(hooks, es, i, task)
  }

  lemma OthersLeaveTask(s: State, e: Event, task: TaskId)
    requires !(e.Attempt? && e.task == task) && task < s.nextTask
    ensures task in Step(s, e).queue <==> task in s.queue
    ensures AttemptsOf(Step(s, e).deliveries, task) == AttemptsOf(s.deliveries, task)
  {
    var s' := Step(s, e);
    if |s'.deliveries| > |s.deliveries| { assert s'.deliveries[..|s'.deliveries| - 1] == s.deliveries; }
  }

  lemma AttemptsEnd(s: State, task: TaskId, outcome: Outcome)
    requires TaskSound(s, task) && task in s.queue && outcome != Aborted && IsActive(s, s.queue[task].webhook)
    requires task !in Attempted(s, task, outcome).queue
    ensures var attempts := AttemptsOf(Attempted(s, task, outcome).deliveries, task);
      attempts != [] && (attempts[|attempts| - 1].status == Delivered || |attempts| == 6)
  {
    var s' := Attempted(s, task, outcome);
    assert s'.deliveries[..|s'.deliveries| - 1] == s.deliveries;
  }

  lemma CutShortEarlier(hooks: map<WebhookId, Webhook>, es: seq<Event>, i: nat, task: TaskId)
    requires es != [] && CutShortAt(hooks, es[..|es| - 1], i, task)
    ensures CutShortAt(hooks, es, i, task)
  {
    assert es[..|es| - 1][..i] == es[..i];
  }

  lemma DoneStaysDone(hooks: map<WebhookId, Webhook>, es: seq<Event>, task: TaskId)
    requires es != [] && IsDone(hooks, es[..|es| - 1], task)
    requires AttemptsOf(Run(State(hooks, [], map[], 0), es).deliveries, task)
          == AttemptsOf(Run(State(hooks, [], map[], 0), es[..|es| - 1]).deliveries, task)
    ensures IsDone(hooks, es, task)
  {
    var before := es[..|es| - 1];
    if i: nat :| CutShortAt(hooks, before, i, task) { CutShortEarlier(hooks, es, i, task); }
  }

  /** The attempt after which the job was no longer queued. */
  lemma LastAttemptEnds(hooks: map<WebhookId, Webhook>, es: seq<Event>, task: TaskId)
    requires es != [] && es[|es| - 1].Attempt? && es[|es| - 1].task == task
    requires task in Run(State(hooks, [], map[], 0), es[..|es| - 1]).queue
    requires task !in Run(State(hooks, [], map[], 0), es).queue
    ensures IsDone(hooks, es, task)
  {
    var before, e := es[..|es| - 1], es[|es| - 1];
    var s := Run(State(hooks, [], map[], 0), before);
    AttemptsAreBounded(hooks, before, task);
    if e.outcome == Aborted || !IsActive(s, s.queue[task].webhook) {
      assert CutShortAt(hooks, es, |es| - 1, task);
    } else {
      AttemptsEnd(s, task, e.outcome);
    }
  }

  lemma IdleAttempt(s: State, e: Event, task: TaskId)
    requires task !in s.queue && task < s.nextTask
    ensures AttemptsOf(Step(s, e).deliveries, task) == AttemptsOf(s.deliveries, task) && task !in Step(s, e).queue
  {
    if !(e.Attempt? && e.task == task) { OthersLeaveTask(s, e, task); }
  }

  lemma QueuedUntilAttempted(s: State, e: Event, task: TaskId)
    requires TaskSound(s, task) && task !in Step(s, e).queue && task < Step(s, e).nextTask
    ensures task < s.nextTask && (task in s.queue ==> e.Attempt? && e.task == task)
  {
  }

  /** A task that is no longer queued was delivered, or failed six times, or was cut short. */
  lemma {:induction false} NoTaskIsForgotten(hooks: map<WebhookId, Webhook>, es: seq<Event>, task: TaskId)
    requires var s := Run(State(hooks, [], map[], 0), es); task < s.nextTask && task !in s.queue
    ensures IsDone(hooks, es, task)
  {
    var before, e := es[..|es| - 1], es[|es| - 1];
    var s := Run(State(hooks, [], map[], 0), before);
    AttemptsAreBounded(hooks, before, task);
    QueuedUntilAttempted(s, e, task);
    if task in s.queue {
      LastAttemptEnds(hooks, es, task);
    } else {
      NoTaskIsForgotten(hooks, before, task);
      IdleAttempt(s, e, task);
      DoneStaysDone(hooks, es, task);
    }
  }
}
