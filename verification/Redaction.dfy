/**
 * Redaction of jobs, tasks and task logs. The secrets are given as the values of the secrets
 * map in the order the map is iterated, which may be any order.
 *
 * Fields that no redaction function mentions are kept together in the `rest` of each record.
 */
module Redaction {
  import opened Wrappers
  import opened Substrings
  import opened FixedPoint
  import opened Overlaps
  import opened TaskLog
  import Redacters

  type Vars = map<string, string>

  // ---- Jobs and tasks ----

  datatype Registry = Registry(username: Option<string>, password: Option<string>)

  datatype Mount = Mount(id: Option<string>, mountType: Option<string>, source: Option<string>,
                         target: Option<string>, opts: Option<Vars>)

  datatype Webhook = Webhook(
    url: Option<string>, headers: Option<Vars>, event: Option<string>, condition: Option<string>)

  datatype SubJobTask = SubJobTask(
    tasks: TaskList, secrets: Option<Vars>, webhooks: Option<seq<Webhook>>, rest: SubJobRest)

  datatype SubJobRest = SubJobRest(
    id: Option<string>, name: Option<string>, description: Option<string>,
    inputs: Option<Vars>, autoDelete: Option<string>, output: Option<string>, detached: bool)

  datatype ParallelTask = ParallelTask(tasks: TaskList, completions: int)

  datatype EachTask = EachTask(variable: Option<string>, list: Option<string>, task: Option<Task>,
                               size: int, completions: int, concurrency: int, index: int)

  /** An optional list of tasks. */
  datatype TaskList = Absent | Present(list: seq<Task>)

  datatype Task = Task(
    env: Option<Vars>,
    mounts: Option<seq<Mount>>,
    pre: TaskList,
    post: TaskList,
    sidecars: TaskList,
    parallel: Option<ParallelTask>,
    registry: Option<Registry>,
    subjob: Option<SubJobTask>,
    each: Option<EachTask>,
    rest: TaskRest)

  datatype TaskRest = TaskRest(
    id: Option<string>, jobId: Option<string>, parentId: Option<string>, position: int,
    name: Option<string>, description: Option<string>, state: string,
    times: seq<Option<int>>, cmd: Option<seq<string>>, entrypoint: Option<seq<string>>,
    run: Option<string>, image: Option<string>, files: Option<Vars>, queue: Option<string>,
    redelivered: int, error: Option<string>, exitCode: Option<int>, networks: Option<seq<string>>,
    nodeId: Option<string>, retry: Option<(int, int)>, limits: Option<(string, string)>,
    timeout: Option<string>, result: Option<string>, variable: Option<string>, condition: Option<string>,
    gpus: Option<string>, tags: Option<seq<string>>, workdir: Option<string>, runtime: Option<string>,
    priority: int, progress: real, probe: Option<string>)

  datatype JobContext = JobContext(job: Option<Vars>, inputs: Option<Vars>, secrets: Option<Vars>, tasks: Option<Vars>)

  datatype Job = Job(
    inputs: Option<Vars>,
    context: Option<JobContext>,
    webhooks: Option<seq<Webhook>>,
    tasks: TaskList,
    execution: TaskList,
    secrets: Option<Vars>,
    rest: JobRest)

  datatype JobRest = JobRest(
    id: Option<string>, parentId: Option<string>, name: Option<string>, description: Option<string>,
    tags: Option<seq<string>>, state: string, times: seq<Option<int>>, createdBy: Option<string>,
    position: int, taskCount: int, output: Option<string>, result: Option<string>, error: Option<string>,
    defaults: Option<string>, permissions: Option<seq<string>>, autoDelete: Option<string>,
    progress: real, schedule: Option<string>)

  // ---- Redaction ----

  /** Every non-empty secret replaced by the marker, one secret after another. */
  function Scrub(text: string, secrets: seq<string>): string
    decreases |secrets|
  {
    if secrets == [] then text
    else if secrets[0] == "" then Scrub(text, secrets[1..])
    else Scrub(Replace(text, secrets[0], REDACTED), secrets[1..])
  }

  function RedactVars(m: Vars, secrets: seq<string>): Vars {
    map k | k in m :: if Redacters.IsSecretKey(k) then REDACTED else Scrub(m[k], secrets)
  }

  function RedactOptVars(m: Option<Vars>, secrets: seq<string>): Option<Vars> {
    if m.Some? then Some(RedactVars(m.value, secrets)) else None
  }

  function RedactMounts(mounts: seq<Mount>, secrets: seq<string>): (r: seq<Mount>)
    ensures |r| == |mounts|
  {
    seq(|mounts|, i requires 0 <= i < |mounts| => mounts[i].(opts := RedactOptVars(mounts[i].opts, secrets)))
  }

  function RedactWebhooks(hooks: seq<Webhook>, secrets: seq<string>): (r: seq<Webhook>)
    ensures |r| == |hooks|
  {
    seq(|hooks|, i requires 0 <= i < |hooks| => hooks[i].(headers := RedactOptVars(hooks[i].headers, secrets)))
  }

  function RedactOptWebhooks(hooks: Option<seq<Webhook>>, secrets: seq<string>): Option<seq<Webhook>> {
    if hooks.Some? then Some(RedactWebhooks(hooks.value, secrets)) else None
  }

  /** Every value replaced by the marker. */
  function HideAll(m: Option<Vars>): Option<Vars> {
    if m.Some? then Some(map k | k in m.value :: REDACTED) else None
  }

  function RedactRegistry(registry: Registry): Registry {
    registry.(password := if registry.password.Some? then Some(REDACTED) else None)
  }

  function RedactSubjob(subjob: SubJobTask, secrets: seq<string>): SubJobTask {
    subjob.(secrets := HideAll(subjob.secrets), webhooks := RedactOptWebhooks(subjob.webhooks, secrets))
  }

  function RedactParallel(parallel: ParallelTask, secrets: seq<string>): ParallelTask
    decreases parallel
  {
    parallel.(tasks := RedactNestedTasks(parallel.tasks, secrets))
  }

  function RedactTask(task: Task, secrets: seq<string>): Task
    decreases task
  {
    task.(
      env := RedactOptVars(task.env, secrets),
      mounts := if task.mounts.Some? then Some(RedactMounts(task.mounts.value, secrets)) else None,
      pre := RedactNestedTasks(task.pre, secrets),
      post := RedactNestedTasks(task.post, secrets),
      sidecars := RedactNestedTasks(task.sidecars, secrets),
      parallel := if task.parallel.Some? then Some(RedactParallel(task.parallel.value, secrets)) else None,
      registry := if task.registry.Some? then Some(RedactRegistry(task.registry.value)) else None,
      subjob := if task.subjob.Some? then Some(RedactSubjob(task.subjob.value, secrets)) else None)
  }

  function RedactNestedTasks(tasks: TaskList, secrets: seq<string>): TaskList
    decreases tasks
  {
    if tasks.Present? then Present(RedactTasks(tasks.list, secrets)) else Absent
  }

  function RedactTasks(tasks: seq<Task>, secrets: seq<string>): (r: seq<Task>)
    ensures |r| == |tasks|
    ensures forall i :: 0 <= i < |tasks| ==> r[i] == RedactTask(tasks[i], secrets)
    decreases tasks
  {
    if tasks == [] then [] else [RedactTask(tasks[0], secrets)] + RedactTasks(tasks[1..], secrets)
  }

  function RedactTaskLogParts(parts: seq<TaskLogPart>, secrets: seq<string>): (r: seq<TaskLogPart>)
    ensures |r| == |parts|
  {
    if secrets == [] then parts
    else
      seq(|parts|, i requires 0 <= i < |parts| =>
        parts[i].(contents := if parts[i].contents.Some? then Some(Scrub(parts[i].contents.value, secrets)) else None))
  }

  function RedactContext(context: JobContext, secrets: seq<string>): JobContext {
    context.(
      inputs := RedactOptVars(context.inputs, secrets),
      secrets := RedactOptVars(context.secrets, secrets),
      tasks := RedactOptVars(context.tasks, secrets))
  }

  /** The job's own secrets, as a map: none if it has no map. */
  function SecretsOf(job: Job): Vars {
    if job.secrets.Some? then job.secrets.value else map[]
  }

  /** The texts are the values of the map, each key's once, in some order of the keys. */
  ghost predicate IterationOf(values: seq<string>, m: Vars) {
    exists keys: seq<string> :: Iterates(keys, values, m)
  }

  ghost predicate Iterates(keys: seq<string>, values: seq<string>, m: Vars) {
    && |keys| == |values|
    && (forall i, j :: 0 <= i < j < |keys| ==> keys[i] != keys[j])
    && (forall k :: k in m ==> k in keys)
    && (forall i :: 0 <= i < |keys| ==> keys[i] in m && values[i] == m[keys[i]])
  }

  function RedactJob(job: Job, secrets: seq<string>): Job
    requires IterationOf(secrets, SecretsOf(job))
  {
    job.(
      inputs := RedactOptVars(job.inputs, secrets),
      context := if job.context.Some? then Some(RedactContext(job.context.value, secrets)) else None,
      webhooks := RedactOptWebhooks(job.webhooks, secrets),
      tasks := RedactNestedTasks(job.tasks, secrets),
      execution := RedactNestedTasks(job.execution, secrets),
      secrets := HideAll(job.secrets))
  }

  // ---- No secret is left ----

  /** The secret cannot overlap the marker. */
  ghost predicate Hideable(secret: string) {
    NoOverlap(secret, REDACTED)
  }

  lemma {:induction false} ScrubKeepsFree(text: string, secrets: seq<string>, s: string)
    requires Hideable(s) && !Contains(text, s)
    ensures !Contains(Scrub(text, secrets), s)
    decreases |secrets|
  {
    if secrets == [] {
    } else if secrets[0] == "" {
      ScrubKeepsFree(text, secrets[1..], s);
    } else {
      ReplaceKeepsFree(text, secrets[0], REDACTED, s);
      ScrubKeepsFree(Replace(text, secrets[0], REDACTED), secrets[1..], s);
    }
  }

  lemma {:induction false} ScrubRemoves(text: string, secrets: seq<string>, s: string)
    requires s in secrets && Hideable(s)
    ensures !Contains(Scrub(text, secrets), s)
    decreases |secrets|
  {
    if secrets[0] == "" {
      assert s in secrets[1..];
      ScrubRemoves(text, secrets[1..], s);
    } else {
      var next := Replace(text, secrets[0], REDACTED);
      if s == secrets[0] {
        ReplaceRemoves(text, s, REDACTED);
        ScrubKeepsFree(next, secrets[1..], s);
      } else {
        assert s in secrets[1..];
        ScrubRemoves(next, secrets[1..], s);
      }
    }
  }

  /** The secret is in none of the values. */
  ghost predicate Clean(m: Option<Vars>, s: string) {
    m.Some? ==> forall k | k in m.value :: !Contains(m.value[k], s)
  }

  ghost predicate CleanHooks(hooks: Option<seq<Webhook>>, s: string) {
    hooks.Some? ==> forall i :: 0 <= i < |hooks.value| ==> Clean(hooks.value[i].headers, s)
  }

  ghost predicate CleanMounts(mounts: Option<seq<Mount>>, s: string) {
    mounts.Some? ==> forall i :: 0 <= i < |mounts.value| ==> Clean(mounts.value[i].opts, s)
  }

  /** The secret is in no environment value, mount option or subjob webhook header of the task or one below it. */
  ghost predicate CleanTask(task: Task, s: string)
    decreases task
  {
    && Clean(task.env, s)
    && CleanMounts(task.mounts, s)
    && (task.subjob.Some? ==> CleanHooks(task.subjob.value.webhooks, s))
    && CleanTasks(task.pre, s)
    && CleanTasks(task.post, s)
    && CleanTasks(task.sidecars, s)
    && (task.parallel.Some? ==> CleanTasks(task.parallel.value.tasks, s))
  }

  ghost predicate CleanTasks(tasks: TaskList, s: string)
    decreases tasks
  {
    tasks.Present? ==> forall t | t in tasks.list :: CleanTask(t, s)
  }

  lemma VarsAreClean(m: Option<Vars>, secrets: seq<string>, s: string)
    requires s in secrets && Hideable(s)
    ensures Clean(RedactOptVars(m, secrets), s)
  {
    if m.Some? {
      Redacters.NoOverlapNotInside(s, REDACTED);
      forall k | k in m.value ensures !Contains(RedactVars(m.value, secrets)[k], s) {
        ScrubRemoves(m.value[k], secrets, s);
      }
    }
  }

  lemma HooksAreClean(hooks: Option<seq<Webhook>>, secrets: seq<string>, s: string)
    requires s in secrets && Hideable(s)
    ensures CleanHooks(RedactOptWebhooks(hooks, secrets), s)
  {
    if hooks.Some? {
      forall i | 0 <= i < |hooks.value| ensures Clean(RedactWebhooks(hooks.value, secrets)[i].headers, s) {
        VarsAreClean(hooks.value[i].headers, secrets, s);
      }
    }
  }

  /**
   * After redaction no secret is left in the environment values, mount options and subjob webhook
   * headers of the task and of every task below it, in whatever order the secrets are taken.
   */
  lemma {:induction false} TaskIsClean(task: Task, secrets: seq<string>, s: string)
    requires s in secrets && Hideable(s)
    ensures CleanTask(RedactTask(task, secrets), s)
    decreases task
  {
    VarsAreClean(task.env, secrets, s);
    if task.mounts.Some? {
      var mounts := task.mounts.value;
      forall i | 0 <= i < |mounts| ensures Clean(RedactMounts(mounts, secrets)[i].opts, s) {
        VarsAreClean(mounts[i].opts, secrets, s);
      }
    }
    if task.subjob.Some? {
      HooksAreClean(task.subjob.value.webhooks, secrets, s);
    }
    TasksAreClean(task.pre, secrets, s);
    TasksAreClean(task.post, secrets, s);
    TasksAreClean(task.sidecars, secrets, s);
    if task.parallel.Some? {
      TasksAreClean(task.parallel.value.tasks, secrets, s);
    }
  }

  lemma {:induction false} TasksAreClean(tasks: TaskList, secrets: seq<string>, s: string)
    requires s in secrets && Hideable(s)
    ensures CleanTasks(RedactNestedTasks(tasks, secrets), s)
    decreases tasks
  {
    if tasks.Present? {
      forall i | 0 <= i < |tasks.list| ensures CleanTask(RedactTask(tasks.list[i], secrets), s) {
        TaskIsClean(tasks.list[i], secrets, s);
      }
    }
  }

  /** Every map can be iterated, so that every job can be redacted. */
  lemma {:induction false} IterationExists(m: Vars) returns (values: seq<string>)
    ensures IterationOf(values, m)
    decreases |m|
  {
    if m == map[] {
      assert Iterates([], [], m);
      return [];
    }
    var k :| k in m;
    var others := m - {k};
    assert k in m.Keys && others.Keys == m.Keys - {k};
    var more := IterationExists(others);
    var keys :| Iterates(keys, more, others);
    values := [m[k]] + more;
    IteratesCons(k, keys, more, m);
  }

  lemma IteratesCons(k: string, keys: seq<string>, values: seq<string>, m: Vars)
    requires k in m && Iterates(keys, values, m - {k})
    ensures Iterates([k] + keys, [m[k]] + values, m)
  {
    var all := [k] + keys;
    forall x | x in m ensures x in all {
      if x != k {
        assert x in m - {k};
        assert x in keys;
      }
    }
    forall i, j | 0 <= i < j < |all| ensures all[i] != all[j] {
      assert all[j] == keys[j - 1] && keys[j - 1] in m - {k};
    }
  }

  /** Every value of the map is among its iterated values. */
  lemma IterationCovers(values: seq<string>, m: Vars, k: string)
    requires IterationOf(values, m) && k in m
    ensures m[k] in values
  {
    var keys :| Iterates(keys, values, m);
    var i :| 0 <= i < |keys| && keys[i] == k;
    assert values[i] == m[k];
  }

  /**
   * The secret is in none of the job's inputs, webhook headers and secrets, in no value of its
   * context but those of the context's `job` map, and in no task or execution entry where
   * CleanTask looks.
   */
  ghost predicate CleanJob(job: Job, s: string) {
    && Clean(job.inputs, s) && Clean(job.secrets, s) && CleanHooks(job.webhooks, s)
    && CleanTasks(job.tasks, s) && CleanTasks(job.execution, s)
    && (job.context.Some? ==> CleanContext(job.context.value, s))
  }

  ghost predicate CleanContext(context: JobContext, s: string) {
    Clean(context.inputs, s) && Clean(context.secrets, s) && Clean(context.tasks, s)
  }

  /** The job's own secret under this key. */
  predicate HasSecret(job: Job, key: string, s: string) {
    job.secrets.Some? && key in job.secrets.value && job.secrets.value[key] == s
  }

  /** No secret of a job is left in these places of its redaction, whatever the order of the secrets. */
  lemma JobIsClean(job: Job, secrets: seq<string>, k: string)
    requires IterationOf(secrets, SecretsOf(job))
    requires job.secrets.Some? && k in job.secrets.value && Hideable(job.secrets.value[k])
    ensures CleanJob(RedactJob(job, secrets), job.secrets.value[k])
  {
    hide IterationOf, RedactTask, CleanTask;
    var s := SecretsOf(job)[k];
    IterationCovers(secrets, SecretsOf(job), k);
    VarsAreClean(job.inputs, secrets, s);
    HooksAreClean(job.webhooks, secrets, s);
    TasksAreClean(job.tasks, secrets, s);
    TasksAreClean(job.execution, secrets, s);
    Redacters.NoOverlapNotInside(s, REDACTED);
    if job.context.Some? {
      VarsAreClean(job.context.value.inputs, secrets, s);
      VarsAreClean(job.context.value.secrets, secrets, s);
      VarsAreClean(job.context.value.tasks, secrets, s);
    }
  }

  /** The context's `job` map is not redacted: a secret in it stays. */
  lemma JobMapStays(job: Job, secrets: seq<string>, s: string)
    requires IterationOf(secrets, SecretsOf(job)) && job.context.Some?
    ensures var r := RedactJob(job, secrets).context;
            r.Some? && (Clean(r.value.job, s) <==> Clean(job.context.value.job, s))
  {
  }

  /** No secret is left in the contents of a redacted log. */
  lemma LogIsClean(parts: seq<TaskLogPart>, secrets: seq<string>, s: string, i: nat)
    requires s in secrets && Hideable(s) && i < |parts|
    ensures var r := RedactTaskLogParts(parts, secrets)[i];
            r.contents.Some? ==> !Contains(r.contents.value, s)
  {
    if parts[i].contents.Some? {
      ScrubRemoves(parts[i].contents.value, secrets, s);
    }
  }

  /** A secret that is a part of the marker stays: replacing any other secret brings the marker in. */
  lemma {:induction false} MarkerPartStays(text: string, secrets: seq<string>, bad: string)
    requires Contains(text, bad) && Contains(REDACTED, bad)
    ensures Contains(Scrub(text, secrets), bad)
    decreases |secrets|
  {
    if secrets == [] {
    } else if secrets[0] == "" || !Contains(text, secrets[0]) {
      if secrets[0] != "" {
        ReplaceAbsent(text, secrets[0], REDACTED);
      }
      MarkerPartStays(text, secrets[1..], bad);
    } else {
      var s := secrets[0];
      var i := Find(text, s).value;
      ReplaceFirst(text, s, REDACTED);
      ContainsPart(text[..i], REDACTED, Replace(text[i + |s|..], s, REDACTED), bad);
      MarkerPartStays(Replace(text, s, REDACTED), secrets[1..], bad);
    }
  }

  lemma TaskKeepsMarkerPart(task: Task, secrets: seq<string>, bad: string)
    requires Contains(REDACTED, bad) && task.env == Some(map["x" := bad])
    ensures !CleanTask(RedactTask(task, secrets), bad)
  {
    assert OccursAt(bad, bad, 0);
    MarkerPartStays(bad, secrets, bad);
    assert "x" in RedactVars(task.env.value, secrets);
  }

  // ---- Which secrets can be hidden ----

  /** The secret is left in some text, beside some other secret. */
  lemma OverlapIsLeft(s: string) returns (other: string, text: string)
    requires s != "" && !Hideable(s)
    ensures other != "" && Contains(Scrub(text, [s, other]), s)
  {
    hide NoOverlap;
    var x, q, y := Surroundings(s);
    ReplaceFiller(x, q, y, s);
    ReplaceAbsent(x + q + y, s, REDACTED);
    var list := [s, q];
    assert list[1..] == [q] && [q][1..] == [];
    assert Scrub(x + REDACTED + y, []) == x + REDACTED + y;
    assert Scrub(x + q + y, [q]) == x + REDACTED + y;
    return q, x + q + y;
  }

  /** The same for the empty secret too. */
  lemma SecretIsLeft(s: string) returns (other: string, text: string)
    requires !Hideable(s)
    ensures Contains(Scrub(text, [s, other]), s)
  {
    if s == "" {
      assert OccursAt(Scrub("", ["", ""]), "", 0);
      return "", "";
    }
    other, text := OverlapIsLeft(s);
  }

  /** With the text as the value of a variable that is not sensitive by name. */
  lemma VarsKeepSecret(text: string, secrets: seq<string>, s: string)
    requires Contains(Scrub(text, secrets), s)
    ensures !Clean(RedactOptVars(Some(map["x" := text]), secrets), s)
  {
    PlainName();
    assert "x" in RedactVars(map["x" := text], secrets);
  }

  lemma TaskKeepsSecret(task: Task, text: string, secrets: seq<string>, s: string)
    requires Contains(Scrub(text, secrets), s) && task.env == Some(map["x" := text])
    ensures !CleanTask(RedactTask(task, secrets), s)
  {
    hide Scrub;
    VarsKeepSecret(text, secrets, s);
  }

  lemma PlainName()
    ensures !Redacters.IsSecretKey("x")
  {
  }

  /**
   * The secrets that redaction removes from every task, whatever other secrets there are and
   * whatever the order: exactly those that are not empty and cannot overlap the marker.
   */
  lemma HiddenExactly(s: string)
    ensures (forall task, secrets | s in secrets :: CleanTask(RedactTask(task, secrets), s)) <==> Hideable(s)
  {
    hide NoOverlap, Scrub;
    if Hideable(s) {
      forall task, secrets | s in secrets ensures CleanTask(RedactTask(task, secrets), s) {
        TaskIsClean(task, secrets, s);
      }
    } else {
      hide RedactTask, CleanTask;
      var other, text := SecretIsLeft(s);
      var task: Task := *;
      task := task.(env := Some(map["x" := text]));
      TaskKeepsSecret(task, text, [s, other], s);
      var secrets := [s, other];
      assert s in secrets && !CleanTask(RedactTask(task, secrets), s);
    }
  }

  /** The secrets that redaction removes from every log they are taken with: the same. */
  lemma HiddenInLogsExactly(s: string)
    ensures (forall parts, secrets, i | s in secrets && 0 <= i < |parts| ::
               var r := RedactTaskLogParts(parts, secrets)[i]; r.contents.Some? ==> !Contains(r.contents.value, s)) <==>
            Hideable(s)
  {
    hide NoOverlap, Scrub;
    if Hideable(s) {
      forall parts, secrets, i | s in secrets && 0 <= i < |parts|
        ensures var r := RedactTaskLogParts(parts, secrets)[i]; r.contents.Some? ==> !Contains(r.contents.value, s)
      {
        LogIsClean(parts, secrets, s, i);
      }
    } else {
      var other, text := SecretIsLeft(s);
      var part := TaskLogPart(None, 0, None, Some(text), None);
      var r := RedactTaskLogParts([part], [s, other])[0];
      assert s in [s, other] && r.contents == Some(Scrub(text, [s, other]));
    }
  }

  /** The secrets of a job that redacting it removes, whatever else the job holds: the same. */
  lemma HiddenInJobsExactly(s: string)
    ensures (forall job, secrets, k |
               IterationOf(secrets, SecretsOf(job)) && HasSecret(job, k, s) ::
               CleanJob(RedactJob(job, secrets), s)) <==>
            Hideable(s)
  {
    hide NoOverlap, Scrub, IterationOf, RedactTask, CleanTask;
    if Hideable(s) {
      forall job, secrets, k | IterationOf(secrets, SecretsOf(job)) && HasSecret(job, k, s)
        ensures CleanJob(RedactJob(job, secrets), s)
      {
        JobIsClean(job, secrets, k);
      }
    } else {
      var other, text := SecretIsLeft(s);
      VarsKeepSecret(text, [s, other], s);
      TwoSecrets(s, other);
      var job: Job := *;
      job := job.(inputs := Some(map["x" := text]), secrets := Some(map["a" := s, "b" := other]));
      assert HasSecret(job, "a", s);
      assert !CleanJob(RedactJob(job, [s, other]), s);
    }
  }

  lemma TwoSecrets(a: string, b: string)
    ensures IterationOf([a, b], map["a" := a, "b" := b])
  {
    assert Iterates(["a", "b"], [a, b], map["a" := a, "b" := b]);
  }

  /** All the non-empty secrets are removed from every task. */
  ghost predicate AlwaysHidden(secrets: seq<string>) {
    forall task, s | s in secrets && s != "" :: CleanTask(RedactTask(task, secrets), s)
  }

  ghost predicate NoneInMarker(secrets: seq<string>) {
    forall s | s in secrets && s != "" :: !Contains(REDACTED, s)
  }

  /**
   * A given list of secrets is always hidden if all of them are Hideable, and only if none is a
   * part of the marker. Without brackets in the secrets the two conditions are one.
   */
  lemma ListHiddenExactly(secrets: seq<string>)
    ensures (forall s | s in secrets && s != "" :: Hideable(s)) ==> AlwaysHidden(secrets)
    ensures AlwaysHidden(secrets) ==> NoneInMarker(secrets)
    ensures (forall s | s in secrets :: '[' !in s && ']' !in s) ==>
              (AlwaysHidden(secrets) <==> NoneInMarker(secrets))
  {
    hide NoOverlap, Scrub, Contains;
    if s :| s in secrets && s != "" && Contains(REDACTED, s) {
      var task: Task := *;
      task := task.(env := Some(map["x" := s]));
      TaskKeepsMarkerPart(task, secrets, s);
    }
    if (forall s | s in secrets :: '[' !in s && ']' !in s) && NoneInMarker(secrets) {
      forall s | s in secrets && s != "" ensures Hideable(s) {
        BracketFreeKeys(s);
      }
    }
    if forall s | s in secrets && s != "" :: Hideable(s) {
      forall task, s | s in secrets && s != "" ensures CleanTask(RedactTask(task, secrets), s) {
        TaskIsClean(task, secrets, s);
      }
    }
  }

  // ---- Nothing else changes ----

  ghost predicate SameKeys(a: Option<Vars>, b: Option<Vars>) {
    (a.Some? <==> b.Some?) && (a.Some? ==> a.value.Keys == b.value.Keys)
  }

  /** No non-empty secret occurs in the text. */
  ghost predicate FreeOf(text: string, secrets: seq<string>) {
    forall i :: 0 <= i < |secrets| && secrets[i] != "" ==> !Contains(text, secrets[i])
  }

  /**
   * Text `b` is `a` with the marker in place of each non-empty secret in turn: cut at the secret's
   * occurrences, joined again with the marker.
   */
  ghost predicate Scrubbed(a: string, secrets: seq<string>, b: string)
    decreases |secrets|
  {
    if secrets == [] then a == b
    else if secrets[0] == "" then Scrubbed(a, secrets[1..], b)
    else exists pieces | CutAt(pieces, secrets[0]) ::
           a == JoinWith(pieces, secrets[0]) && Scrubbed(JoinWith(pieces, REDACTED), secrets[1..], b)
  }

  /** That is one text, and the one the fold of replacements computes. */
  lemma {:induction false} ScrubMeaning(a: string, secrets: seq<string>, b: string)
    ensures Scrubbed(a, secrets, b) <==> b == Scrub(a, secrets)
    decreases |secrets|
  {
    if secrets == [] {
    } else if secrets[0] == "" {
      ScrubMeaning(a, secrets[1..], b);
    } else {
      var s := secrets[0];
      var pieces := ReplaceMeaning(a, s, REDACTED);
      ScrubMeaning(Replace(a, s, REDACTED), secrets[1..], b);
      forall others | CutAt(others, s) && a == JoinWith(others, s)
        ensures JoinWith(others, REDACTED) == Replace(a, s, REDACTED)
      {
        ReplaceOfCut(others, s, REDACTED);
      }
    }
  }

  /**
   * The keys are the same; values of sensitive names are hidden; in other values the marker
   * stands for the secrets, and they are unchanged if no secret occurs in them.
   */
  ghost predicate SameVars(a: Option<Vars>, b: Option<Vars>, secrets: seq<string>) {
    && SameKeys(a, b)
    && (a.Some? ==> forall k | k in a.value ::
          if Redacters.SensitiveName(k) then b.value[k] == REDACTED
          else Scrubbed(a.value[k], secrets, b.value[k]) && (FreeOf(a.value[k], secrets) ==> b.value[k] == a.value[k]))
  }

  ghost predicate SameHooks(a: Option<seq<Webhook>>, b: Option<seq<Webhook>>, secrets: seq<string>) {
    && (a.Some? <==> b.Some?)
    && (a.Some? ==>
          && |a.value| == |b.value|
          && forall i :: 0 <= i < |a.value| ==>
               && SameVars(a.value[i].headers, b.value[i].headers, secrets)
               && b.value[i] == a.value[i].(headers := b.value[i].headers))
  }

  ghost predicate SameMounts(a: Option<seq<Mount>>, b: Option<seq<Mount>>, secrets: seq<string>) {
    && (a.Some? <==> b.Some?)
    && (a.Some? ==>
          && |a.value| == |b.value|
          && forall i :: 0 <= i < |a.value| ==>
               && SameVars(a.value[i].opts, b.value[i].opts, secrets)
               && b.value[i] == a.value[i].(opts := b.value[i].opts))
  }

  /** Every value is the marker. */
  ghost predicate Hidden(a: Option<Vars>, b: Option<Vars>) {
    SameKeys(a, b) && (b.Some? ==> forall k | k in b.value :: b.value[k] == REDACTED)
  }

  ghost predicate SameSubjob(a: SubJobTask, b: SubJobTask, secrets: seq<string>) {
    && a.tasks == b.tasks && a.rest == b.rest
    && Hidden(a.secrets, b.secrets)
    && SameHooks(a.webhooks, b.webhooks, secrets)
  }

  ghost predicate SameRegistry(a: Registry, b: Registry) {
    && a.username == b.username
    && b.password == if a.password.Some? then Some(REDACTED) else None
  }

  /**
   * Tree `b` has the shape of `a`, and differs at most in values of environment, mount options
   * and subjob webhook headers, in registry passwords and in subjob secrets, the last two hidden.
   */
  ghost predicate SameShape(a: Task, b: Task, secrets: seq<string>)
    decreases a
  {
    && a.rest == b.rest && a.each == b.each
    && SameVars(a.env, b.env, secrets) && SameMounts(a.mounts, b.mounts, secrets)
    && SameShapes(a.pre, b.pre, secrets) && SameShapes(a.post, b.post, secrets)
    && SameShapes(a.sidecars, b.sidecars, secrets)
    && (a.parallel.Some? <==> b.parallel.Some?)
    && (a.parallel.Some? ==>
          && SameShapes(a.parallel.value.tasks, b.parallel.value.tasks, secrets)
          && a.parallel.value.completions == b.parallel.value.completions)
    && (a.registry.Some? <==> b.registry.Some?)
    && (a.registry.Some? ==> SameRegistry(a.registry.value, b.registry.value))
    && (a.subjob.Some? <==> b.subjob.Some?)
    && (a.subjob.Some? ==> SameSubjob(a.subjob.value, b.subjob.value, secrets))
  }

  ghost predicate SameShapes(a: TaskList, b: TaskList, secrets: seq<string>)
    decreases a
  {
    && (a.Present? <==> b.Present?)
    && (a.Present? ==>
          && |a.list| == |b.list|
          && forall i :: 0 <= i < |a.list| ==> SameShape(a.list[i], b.list[i], secrets))
  }

  lemma {:induction false} ScrubOfFree(text: string, secrets: seq<string>)
    requires FreeOf(text, secrets)
    ensures Scrub(text, secrets) == text
    decreases |secrets|
  {
    if secrets != [] {
      if secrets[0] != "" {
        ReplaceAbsent(text, secrets[0], REDACTED);
      }
      assert forall i :: 0 <= i < |secrets[1..]| ==> secrets[1..][i] == secrets[i + 1];
      ScrubOfFree(text, secrets[1..]);
    }
  }

  lemma VarsKept(m: Option<Vars>, secrets: seq<string>)
    ensures SameVars(m, RedactOptVars(m, secrets), secrets)
  {
    if m.Some? {
      forall k | k in m.value
        ensures Scrubbed(m.value[k], secrets, Scrub(m.value[k], secrets))
        ensures FreeOf(m.value[k], secrets) ==> Scrub(m.value[k], secrets) == m.value[k]
        ensures Redacters.IsSecretKey(k) <==> Redacters.SensitiveName(k)
      {
        Redacters.SecretKeysExactly(k);
        ScrubMeaning(m.value[k], secrets, Scrub(m.value[k], secrets));
        if FreeOf(m.value[k], secrets) {
          ScrubOfFree(m.value[k], secrets);
        }
      }
    }
  }

  /** The value of a sensitive variable becomes the marker, whatever the secrets. */
  lemma SensitiveIsHidden(m: Vars, secrets: seq<string>, name: string)
    requires name in m && Redacters.SensitiveName(name)
    ensures name in RedactVars(m, secrets) && RedactVars(m, secrets)[name] == "[REDACTED]"
  {
    Redacters.SecretKeysExactly(name);
  }

  /** In a log nothing but the contents changes, and there only the secrets. */
  lemma LogIsKept(parts: seq<TaskLogPart>, secrets: seq<string>, i: nat)
    requires i < |parts|
    ensures var a, b := parts[i], RedactTaskLogParts(parts, secrets)[i];
            && b == a.(contents := b.contents) && (a.contents.Some? <==> b.contents.Some?)
            && (a.contents.Some? ==> Scrubbed(a.contents.value, secrets, b.contents.value))
  {
    if parts[i].contents.Some? {
      var a := parts[i].contents.value;
      ScrubMeaning(a, secrets, Scrub(a, secrets));
    }
  }

  lemma HooksKept(hooks: Option<seq<Webhook>>, secrets: seq<string>)
    ensures SameHooks(hooks, RedactOptWebhooks(hooks, secrets), secrets)
  {
    if hooks.Some? {
      forall i | 0 <= i < |hooks.value|
        ensures SameVars(hooks.value[i].headers, RedactWebhooks(hooks.value, secrets)[i].headers, secrets)
      {
        VarsKept(hooks.value[i].headers, secrets);
      }
    }
  }

  lemma MountsKept(mounts: seq<Mount>, secrets: seq<string>)
    ensures SameMounts(Some(mounts), Some(RedactMounts(mounts, secrets)), secrets)
  {
    forall i | 0 <= i < |mounts| ensures SameVars(mounts[i].opts, RedactMounts(mounts, secrets)[i].opts, secrets) {
      VarsKept(mounts[i].opts, secrets);
    }
  }

  /** Redaction keeps the shape of the task tree and everything that is not to be hidden. */
  lemma {:induction false} RedactKeepsShape(task: Task, secrets: seq<string>)
    ensures SameShape(task, RedactTask(task, secrets), secrets)
    decreases task
  {
    hide SameVars, SameMounts, SameHooks, RedactOptVars, RedactMounts, RedactOptWebhooks;
    VarsKept(task.env, secrets);
    MountsAbsent(secrets);
    if task.mounts.Some? {
      MountsKept(task.mounts.value, secrets);
    }
    RedactKeepsShapes(task.pre, secrets);
    RedactKeepsShapes(task.post, secrets);
    RedactKeepsShapes(task.sidecars, secrets);
    if task.parallel.Some? {
      RedactKeepsShapes(task.parallel.value.tasks, secrets);
    }
    if task.subjob.Some? {
      HooksKept(task.subjob.value.webhooks, secrets);
    }
  }

  lemma MountsAbsent(secrets: seq<string>)
    ensures SameMounts(None, None, secrets)
  {
  }

  lemma {:induction false} RedactKeepsShapes(tasks: TaskList, secrets: seq<string>)
    ensures SameShapes(tasks, RedactNestedTasks(tasks, secrets), secrets)
    decreases tasks
  {
    if tasks.Present? {
      forall i | 0 <= i < |tasks.list| ensures SameShape(tasks.list[i], RedactTask(tasks.list[i], secrets), secrets) {
        RedactKeepsShape(tasks.list[i], secrets);
      }
    }
  }

  /** The same for a job: its own secrets are hidden, its context keeps the `job` map, all else is as in the parts. */
  lemma RedactJobKeepsShape(job: Job, secrets: seq<string>)
    requires IterationOf(secrets, SecretsOf(job))
    ensures var r := RedactJob(job, secrets);
            && r.rest == job.rest && Hidden(job.secrets, r.secrets)
            && SameVars(job.inputs, r.inputs, secrets) && SameHooks(job.webhooks, r.webhooks, secrets)
            && SameShapes(job.tasks, r.tasks, secrets) && SameShapes(job.execution, r.execution, secrets)
            && (job.context.Some? <==> r.context.Some?)
            && (job.context.Some? ==>
                  var c, d := job.context.value, r.context.value;
                  && c.job == d.job && SameVars(c.inputs, d.inputs, secrets)
                  && SameVars(c.secrets, d.secrets, secrets) && SameVars(c.tasks, d.tasks, secrets))
  {
    hide SameVars, SameHooks, SameShapes, RedactOptVars, RedactOptWebhooks, RedactNestedTasks, IterationOf;
    VarsKept(job.inputs, secrets);
    HooksKept(job.webhooks, secrets);
    RedactKeepsShapes(job.tasks, secrets);
    RedactKeepsShapes(job.execution, secrets);
    if job.context.Some? {
      VarsKept(job.context.value.inputs, secrets);
      VarsKept(job.context.value.secrets, secrets);
      VarsKept(job.context.value.tasks, secrets);
    }
  }

  // ---- Redacting again ----

  ghost predicate AllMarkers(secrets: seq<string>) {
    forall i :: 0 <= i < |secrets| ==> secrets[i] == REDACTED
  }

  lemma {:induction false} ScrubByMarkers(text: string, secrets: seq<string>)
    requires AllMarkers(secrets)
    ensures Scrub(text, secrets) == text
    decreases |secrets|
  {
    if secrets != [] {
      assert secrets[0] == REDACTED;
      ReplaceBySame(text, REDACTED);
      ScrubByMarkers(text, secrets[1..]);
    }
  }

  lemma VarsAgain(m: Option<Vars>, secrets: seq<string>, markers: seq<string>)
    requires AllMarkers(markers)
    ensures RedactOptVars(RedactOptVars(m, secrets), markers) == RedactOptVars(m, secrets)
  {
    if m.Some? {
      var once := RedactVars(m.value, secrets);
      var twice := RedactVars(once, markers);
      forall k | k in m.value ensures twice[k] == once[k] {
        ScrubByMarkers(once[k], markers);
      }
      assert twice == once;
    }
  }

  lemma HooksAgain(hooks: Option<seq<Webhook>>, secrets: seq<string>, markers: seq<string>)
    requires AllMarkers(markers)
    ensures RedactOptWebhooks(RedactOptWebhooks(hooks, secrets), markers) == RedactOptWebhooks(hooks, secrets)
  {
    if hooks.Some? {
      var once := RedactWebhooks(hooks.value, secrets);
      var twice := RedactWebhooks(once, markers);
      forall i | 0 <= i < |once| ensures twice[i] == once[i] {
        VarsAgain(hooks.value[i].headers, secrets, markers);
      }
      assert twice == once;
    }
  }

  lemma MountsAgain(mounts: seq<Mount>, secrets: seq<string>, markers: seq<string>)
    requires AllMarkers(markers)
    ensures RedactMounts(RedactMounts(mounts, secrets), markers) == RedactMounts(mounts, secrets)
  {
    var once := RedactMounts(mounts, secrets);
    var twice := RedactMounts(once, markers);
    forall i | 0 <= i < |once| ensures twice[i] == once[i] {
      VarsAgain(mounts[i].opts, secrets, markers);
    }
    assert twice == once;
  }

  lemma HideAgain(m: Option<Vars>)
    ensures HideAll(HideAll(m)) == HideAll(m)
  {
    if m.Some? {
      assert HideAll(HideAll(m)).value == HideAll(m).value;
    }
  }

  lemma SubjobAgain(subjob: SubJobTask, secrets: seq<string>, markers: seq<string>)
    requires AllMarkers(markers)
    ensures RedactSubjob(RedactSubjob(subjob, secrets), markers) == RedactSubjob(subjob, secrets)
  {
    HideAgain(subjob.secrets);
    HooksAgain(subjob.webhooks, secrets, markers);
  }

  lemma ContextAgain(context: JobContext, secrets: seq<string>, markers: seq<string>)
    requires AllMarkers(markers)
    ensures RedactContext(RedactContext(context, secrets), markers) == RedactContext(context, secrets)
  {
    VarsAgain(context.inputs, secrets, markers);
    VarsAgain(context.secrets, secrets, markers);
    VarsAgain(context.tasks, secrets, markers);
  }

  lemma {:induction false} TaskAgain(task: Task, secrets: seq<string>, markers: seq<string>)
    requires AllMarkers(markers)
    ensures RedactTask(RedactTask(task, secrets), markers) == RedactTask(task, secrets)
    decreases task
  {
    VarsAgain(task.env, secrets, markers);
    if task.mounts.Some? {
      MountsAgain(task.mounts.value, secrets, markers);
    }
    TasksAgain(task.pre, secrets, markers);
    TasksAgain(task.post, secrets, markers);
    TasksAgain(task.sidecars, secrets, markers);
    if task.parallel.Some? {
      TasksAgain(task.parallel.value.tasks, secrets, markers);
    }
    if task.subjob.Some? {
      SubjobAgain(task.subjob.value, secrets, markers);
    }
  }

  lemma {:induction false} TasksAgain(tasks: TaskList, secrets: seq<string>, markers: seq<string>)
    requires AllMarkers(markers)
    ensures RedactNestedTasks(RedactNestedTasks(tasks, secrets), markers) == RedactNestedTasks(tasks, secrets)
    decreases tasks
  {
    if tasks.Present? {
      var once := RedactTasks(tasks.list, secrets);
      var twice := RedactTasks(once, markers);
      forall i | 0 <= i < |once| ensures twice[i] == once[i] {
        TaskAgain(tasks.list[i], secrets, markers);
      }
      assert twice == once;
    }
  }

  /** Redacting a job twice is redacting it once: for every job and every order of the secrets, both times. */
  lemma RedactJobIsIdempotent(job: Job, secrets: seq<string>, markers: seq<string>)
    requires IterationOf(secrets, SecretsOf(job))
    requires IterationOf(markers, SecretsOf(RedactJob(job, secrets)))
    ensures RedactJob(RedactJob(job, secrets), markers) == RedactJob(job, secrets)
  {
    hide RedactOptVars, RedactOptWebhooks, RedactNestedTasks, RedactContext, HideAll, IterationOf;
    HiddenIteration(job.secrets, markers);
    VarsAgain(job.inputs, secrets, markers);
    HooksAgain(job.webhooks, secrets, markers);
    TasksAgain(job.tasks, secrets, markers);
    TasksAgain(job.execution, secrets, markers);
    HideAgain(job.secrets);
    if job.context.Some? {
      ContextAgain(job.context.value, secrets, markers);
    }
  }

  /** Iterating over hidden secrets gives nothing but markers. */
  lemma HiddenIteration(secrets: Option<Vars>, markers: seq<string>)
    requires IterationOf(markers, if HideAll(secrets).Some? then HideAll(secrets).value else map[])
    ensures AllMarkers(markers)
  {
  }
}
