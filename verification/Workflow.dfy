/** The checker of the skip conditions of a CI workflow (ci/scripts/check_rust_workflow_skips.py),
    and what it guarantees about the jobs a CI run skips. */
module Workflow {
  import opened Text
  import opened Expression
  import StringOrder

  // The workflow file

  /** A YAML value: a string, or something that equals no string. */
  datatype Value = Str(s: string) | Other

  datatype Step = Step(id: Option<string>, uses: string, artifact: Option<string>, cond: Option<Value>)

  /** An entry of `steps:`. */
  datatype StepEntry =
    | Scalar
    | One(step: Step)
    | Parallel(steps: seq<Option<Step>>)

  datatype Needs = NoNeeds | OneNeed(job: string) | Needs(jobs: seq<string>)

  /** A job; `cond` is None when `if:` is missing or null. */
  datatype Job = Job(cond: Option<Value>, needs: Needs, name: Option<string>, steps: seq<StepEntry>)

  function JobNeeds(j: Job): seq<string> {
    match j.needs
    case NoNeeds => []
    case OneNeed(job) => [job]
    case Needs(jobs) => jobs
  }

  /** `needs:` names the job, as a string or in a list. */
  ghost predicate NeedsJob(j: Job, n: string) {
    j.needs == OneNeed(n) || (j.needs.Needs? && n in j.needs.jobs)
  }

  lemma NeedsAre(j: Job, n: string)
    ensures n in JobNeeds(j) <==> NeedsJob(j, n)
  {
  }

  /** The job has the step, alone or in a `parallel:` group. */
  ghost predicate HasStep(j: Job, s: Step) {
    exists e <- j.steps :: e == One(s) || (e.Parallel? && Some(s) in e.steps)
  }

  function Present(steps: seq<Option<Step>>): seq<Step> {
    if steps == [] then []
    else (if steps[0].Some? then [steps[0].value] else []) + Present(steps[1..])
  }

  /** `iter_steps`: `parallel:` groups are flattened, and what is no mapping is dropped. */
  function IterSteps(entries: seq<StepEntry>): seq<Step> {
    if entries == [] then []
    else
      (match entries[0]
       case Scalar => []
       case One(step) => [step]
       case Parallel(steps) => Present(steps))
      + IterSteps(entries[1..])
  }

  // The policies

  datatype PolicyName = PostMerge | ForkPullRequest

  /** The jobs that are skipped when the clause holds. */
  datatype Policy = Policy(members: set<string>, clause: Expr)

  /** The checker's input. The jobs are those that are mappings. */
  datatype Input = Input(jobs: map<string, Job>, required: set<string>, post: Policy, fork: Policy)

  function PolicyOf(c: Input, name: PolicyName): Policy {
    if name.PostMerge? then c.post else c.fork
  }

  function Clauses(c: Input, job: string): seq<Expr> {
    (if job in c.post.members then [c.post.clause] else [])
    + (if job in c.fork.members then [c.fork.clause] else [])
  }

  function JoinNegated(clauses: seq<Expr>): string {
    if clauses == [] then ""
    else if |clauses| == 1 then "!(" + Render(clauses[0]) + ")"
    else "!(" + Render(clauses[0]) + ")" + " && " + JoinNegated(clauses[1..])
  }

  /** `expected_condition`. */
  function ExpectedCondition(c: Input, job: string): Option<string> {
    if Clauses(c, job) == [] then None
    else Some("${{ " + JoinNegated(Clauses(c, job)) + " }}")
  }

  const ARTIFACT_JOB := "linux-build-lib"
  const ARTIFACT_ARCHIVE_STEP := "archive-check"
  const ARTIFACT_NAME := "cargo-check"
  const UPLOAD := "actions/upload-artifact"
  const DOWNLOAD := "actions/download-artifact"
  const ARCHIVED := "steps." + (ARTIFACT_ARCHIVE_STEP + ".outcome == 'success'")

  function ArchiveCondition(c: Input): string {
    "${{ " + ("!(" + Render(c.post.clause) + ")") + " }}"
  }

  function UploadCondition(c: Input): string {
    "${{ " + (ARCHIVED + " && " + ("!(" + Render(c.post.clause) + ")")) + " }}"
  }

  predicate Archives(s: Step) {
    s.id == Some(ARTIFACT_ARCHIVE_STEP)
  }

  predicate Moves(s: Step, action: string) {
    action <= s.uses && s.artifact == Some(ARTIFACT_NAME)
  }

  function ArchiveSteps(steps: seq<Step>): seq<Step> {
    if steps == [] then []
    else (if Archives(steps[0]) then [steps[0]] else []) + ArchiveSteps(steps[1..])
  }

  function MovingSteps(steps: seq<Step>, action: string): seq<Step> {
    if steps == [] then []
    else (if Moves(steps[0], action) then [steps[0]] else []) + MovingSteps(steps[1..], action)
  }

  predicate OnlyOne(steps: seq<Step>, condition: string) {
    |steps| == 1 && steps[0].cond == Some(Str(condition))
  }

  predicate Consumes(j: Job) {
    MovingSteps(IterSteps(j.steps), DOWNLOAD) != []
  }

  // The checks, one job at a time

  datatype Error =
    | MissingJob(job: string)
    | UnexpectedCondition(job: string)
    | WrongCondition(job: string, expected: string)
    | BlockedByNeeds(job: string, name: PolicyName, blocked: seq<string>)
    | NotRequired(job: string)
    | NoArtifactJob
    | BadArchiveStep
    | BadUploadStep
    | UnlistedConsumer(job: string, name: PolicyName)

  datatype Section = Listed | Conditions | NeedsOf(name: PolicyName) | Required | Consumers

  function ConditionValue(expected: Option<string>): Option<Value> {
    if expected.Some? then Some(Str(expected.value)) else None
  }

  predicate ConditionExact(c: Input, job: string)
    requires job in c.jobs
  {
    c.jobs[job].cond == ConditionValue(ExpectedCondition(c, job))
  }

  function NeedSet(j: Job): set<string> {
    set n | n in JobNeeds(j)
  }

  function Blocked(c: Input, name: PolicyName, job: string): set<string>
    requires job in c.jobs
  {
    if job in PolicyOf(c, name).members then {} else NeedSet(c.jobs[job]) * PolicyOf(c, name).members
  }

  function DisplayName(c: Input, job: string): string
    requires job in c.jobs
  {
    if c.jobs[job].name.Some? then c.jobs[job].name.value else job
  }

  /** The artifact is missing when the post-merge steps skip, and when its whole job skips. */
  predicate ConsumerSet(c: Input, name: PolicyName) {
    name.PostMerge? || ARTIFACT_JOB in c.fork.members
  }

  function ConsumerErrors(c: Input, name: PolicyName, job: string): seq<Error> {
    if ConsumerSet(c, name) && job !in PolicyOf(c, name).members then [UnlistedConsumer(job, name)] else []
  }

  function ErrorsOf(section: Section, c: Input, job: string): seq<Error>
    requires section.Listed? || job in c.jobs
  {
    match section
    case Listed => [MissingJob(job)]
    case Conditions =>
      if ConditionExact(c, job) then []
      else if ExpectedCondition(c, job).None? then [UnexpectedCondition(job)]
      else [WrongCondition(job, ExpectedCondition(c, job).value)]
    case NeedsOf(name) =>
      if Blocked(c, name, job) == {} then []
      else [BlockedByNeeds(job, name, StringOrder.Sorted(Blocked(c, name, job)))]
    case Required => if DisplayName(c, job) in c.required then [] else [NotRequired(job)]
    case Consumers =>
      if Consumes(c.jobs[job]) then ConsumerErrors(c, PostMerge, job) + ConsumerErrors(c, ForkPullRequest, job)
      else []
  }

  predicate InJobs(section: Section, c: Input, jobs: seq<string>) {
    forall j :: j in jobs ==> section.Listed? || j in c.jobs
  }

  function Errors(section: Section, c: Input, jobs: seq<string>): seq<Error>
    requires InJobs(section, c, jobs)
  {
    if jobs == [] then []
    else
      assert jobs[0] in jobs;
      ErrorsOf(section, c, jobs[0]) + Errors(section, c, jobs[1..])
  }

  function ArtifactErrors(c: Input): seq<Error> {
    if ARTIFACT_JOB !in c.jobs then [NoArtifactJob]
    else
      var steps := IterSteps(c.jobs[ARTIFACT_JOB].steps);
      (if OnlyOne(ArchiveSteps(steps), ArchiveCondition(c)) then [] else [BadArchiveStep])
      + (if OnlyOne(MovingSteps(steps, UPLOAD), UploadCondition(c)) then [] else [BadUploadStep])
  }

  function JobsOf(c: Input): (r: seq<string>)
    ensures forall j :: j in r <==> j in c.jobs
  {
    StringOrder.Sorted(c.jobs.Keys)
  }

  function ListedMissing(c: Input): seq<string> {
    StringOrder.Sorted(c.post.members + c.fork.members - c.jobs.Keys)
  }

  function PostMergeJobs(c: Input): (r: seq<string>)
    ensures forall j :: j in r <==> j in c.post.members && j in c.jobs
  {
    StringOrder.Sorted(c.post.members * c.jobs.Keys)
  }

  function RequiredErrors(c: Input): seq<Error> {
    if c.required == {} then [] else Errors(Required, c, PostMergeJobs(c))
  }

  /** The errors in the order they are reported. */
  function AllErrors(c: Input): seq<Error> {
    Errors(Listed, c, ListedMissing(c))
    + Errors(Conditions, c, JobsOf(c))
    + Errors(NeedsOf(PostMerge), c, JobsOf(c))
    + RequiredErrors(c)
    + Errors(NeedsOf(ForkPullRequest), c, JobsOf(c))
    + ArtifactErrors(c)
    + Errors(Consumers, c, JobsOf(c))
  }

  lemma ErrorsNext(section: Section, c: Input, jobs: seq<string>, i: nat, sofar: seq<Error>)
    requires InJobs(section, c, jobs) && i < |jobs|
    ensures jobs[i] in jobs && InJobs(section, c, jobs[i..]) && InJobs(section, c, jobs[i + 1..])
    ensures sofar + Errors(section, c, jobs[i..])
         == sofar + ErrorsOf(section, c, jobs[i]) + Errors(section, c, jobs[i + 1..])
  {
    hide ErrorsOf;
    assert jobs[i..][1..] == jobs[i + 1..] && jobs[i..][0] == jobs[i];
    assert sofar + (ErrorsOf(section, c, jobs[i]) + Errors(section, c, jobs[i + 1..]))
        == sofar + ErrorsOf(section, c, jobs[i]) + Errors(section, c, jobs[i + 1..]);
  }

  /** The loops of `check_skip_conditions` over the jobs of one section. */
  method CheckSection(section: Section, c: Input, jobs: seq<string>, found: seq<Error>) returns (errors: seq<Error>)
    requires InJobs(section, c, jobs)
    ensures errors == found + Errors(section, c, jobs)
  {
    hide Errors, ErrorsOf;
    errors := found;
    assert jobs[0..] == jobs;
    for i := 0 to |jobs|
      invariant InJobs(section, c, jobs[i..])
      invariant found + Errors(section, c, jobs) == errors + Errors(section, c, jobs[i..])
    {
      ErrorsNext(section, c, jobs, i, errors);
      var e := ErrorsOf(section, c, jobs[i]);
      errors := errors + e;
    }
    NoErrorsLeft(section, c, jobs[|jobs|..], errors);
  }

  lemma NoErrorsLeft(section: Section, c: Input, jobs: seq<string>, found: seq<Error>)
    requires jobs == []
    ensures found + Errors(section, c, jobs) == found
  {}

  method CheckSkipConditions(c: Input) returns (errors: seq<Error>)
    ensures errors == AllErrors(c)
  {
    hide Errors, ArtifactErrors, ListedMissing, JobsOf, PostMergeJobs;
    errors := CheckSection(Listed, c, ListedMissing(c), []);
    assert errors == Errors(Listed, c, ListedMissing(c));
    errors := CheckSection(Conditions, c, JobsOf(c), errors);
    errors := CheckSection(NeedsOf(PostMerge), c, JobsOf(c), errors);
    if c.required != {} {
      errors := CheckSection(Required, c, PostMergeJobs(c), errors);
    }
    errors := CheckSection(NeedsOf(ForkPullRequest), c, JobsOf(c), errors);
    errors := errors + ArtifactErrors(c);
    errors := CheckSection(Consumers, c, JobsOf(c), errors);
  }

  // The order of the report

  /** The job that an error is about. */
  function JobOf(e: Error): Option<string> {
    match e
    case NoArtifactJob => None
    case BadArchiveStep => None
    case BadUploadStep => None
    case _ => Some(e.job)
  }

  predicate AboutJob(e: Error, jobs: seq<string>) {
    JobOf(e).Some? && JobOf(e).value in jobs
  }

  predicate NotBehind(a: Error, b: Error) {
    JobOf(a).Some? && JobOf(b).Some? && StringOrder.Le(JobOf(a).value, JobOf(b).value)
  }

  /** Every error is about one of the jobs, and they come in the order of the jobs' names. */
  ghost predicate InJobOrder(errors: seq<Error>, jobs: seq<string>) {
    && (forall e <- errors :: AboutJob(e, jobs))
    && forall i, j :: 0 <= i < j < |errors| ==> NotBehind(errors[i], errors[j])
  }

  lemma ErrorsAreAboutJob(section: Section, c: Input, job: string)
    requires section.Listed? || job in c.jobs
    ensures forall e <- ErrorsOf(section, c, job) :: JobOf(e) == Some(job)
  {
  }

  lemma {:induction false} ErrorsAscend(section: Section, c: Input, jobs: seq<string>)
    requires InJobs(section, c, jobs) && StringOrder.Ascending(jobs)
    ensures InJobOrder(Errors(section, c, jobs), jobs)
  {
    hide ErrorsOf, StringOrder.Le;
    if jobs == [] {
    } else {
      assert jobs[0] in jobs;
      ErrorsAreAboutJob(section, c, jobs[0]);
      ErrorsAscend(section, c, jobs[1..]);
      InFrontOfAll(ErrorsOf(section, c, jobs[0]), Errors(section, c, jobs[1..]), jobs);
    }
  }

  lemma InFrontOfAll(first: seq<Error>, rest: seq<Error>, jobs: seq<string>)
    requires jobs != [] && StringOrder.Ascending(jobs) && InJobOrder(rest, jobs[1..])
    requires forall e <- first :: JobOf(e) == Some(jobs[0])
    ensures InJobOrder(first + rest, jobs)
  {
    hide StringOrder.Le;
    StringOrder.Total(jobs[0], jobs[0]);
    forall e <- rest ensures AboutJob(e, jobs) && StringOrder.Le(jobs[0], JobOf(e).value) {
      assert AboutJob(e, jobs[1..]);
      var k :| 0 <= k < |jobs[1..]| && jobs[1..][k] == JobOf(e).value;
      assert jobs[k + 1] == JobOf(e).value;
    }
    var all := first + rest;
    forall e <- all ensures AboutJob(e, jobs) { assert e in first || e in rest; }
    forall i, j | 0 <= i < j < |all| ensures NotBehind(all[i], all[j]) {
      if j < |first| {
        assert all[i] in first && all[j] in first;
      } else {
        assert all[j] == rest[j - |first|] && all[j] in rest;
        if i < |first| {
          assert all[i] in first;
        } else {
          assert all[i] == rest[i - |first|];
        }
      }
    }
  }

  /** Each section reports in the order of the jobs' names, and lists the jobs that block one in that
      order, without repetition. */
  lemma ReportIsOrdered(c: Input)
    ensures InJobOrder(Errors(Listed, c, ListedMissing(c)), ListedMissing(c))
    ensures forall section: Section :: !section.Listed? ==> InJobOrder(Errors(section, c, JobsOf(c)), JobsOf(c))
    ensures InJobOrder(RequiredErrors(c), PostMergeJobs(c))
    ensures forall job, name :: job in c.jobs ==> StringOrder.Ascending(StringOrder.Sorted(Blocked(c, name, job)))
  {
    hide StringOrder.Sorted, StringOrder.Ascending, InJobOrder, Errors;
    StringOrder.SortedIsAscending(c.post.members + c.fork.members - c.jobs.Keys);
    ErrorsAscend(Listed, c, ListedMissing(c));
    StringOrder.SortedIsAscending(c.jobs.Keys);
    forall section: Section | !section.Listed? ensures InJobOrder(Errors(section, c, JobsOf(c)), JobsOf(c)) {
      ErrorsAscend(section, c, JobsOf(c));
    }
    StringOrder.SortedIsAscending(c.post.members * c.jobs.Keys);
    ErrorsAscend(Required, c, PostMergeJobs(c));
    NothingIsInOrder(PostMergeJobs(c));
    forall job, name | job in c.jobs
      ensures StringOrder.Ascending(StringOrder.Sorted(Blocked(c, name, job)))
    {
      StringOrder.SortedIsAscending(Blocked(c, name, job));
    }
  }

  lemma NothingIsInOrder(jobs: seq<string>)
    ensures InJobOrder([], jobs)
  {
  }

  // No errors, exactly when the checked conditions hold

  predicate ConditionsExact(c: Input) {
    forall job :: job in c.jobs ==> ConditionExact(c, job)
  }

  /** No job outside a set needs a job of the set. */
  predicate NeedsClosed(c: Input) {
    forall name: PolicyName, job :: job in c.jobs ==> Blocked(c, name, job) == {}
  }

  predicate Gated(c: Input) {
    c.required != {} ==>
      forall job :: job in c.jobs && job in c.post.members ==> DisplayName(c, job) in c.required
  }

  predicate ArtifactSteps(c: Input) {
    && ARTIFACT_JOB in c.jobs
    && var steps := IterSteps(c.jobs[ARTIFACT_JOB].steps);
       && OnlyOne(ArchiveSteps(steps), ArchiveCondition(c))
       && OnlyOne(MovingSteps(steps, UPLOAD), UploadCondition(c))
  }

  predicate ConsumersListed(c: Input) {
    forall job :: job in c.jobs ==> ConsumerListed(c, job)
  }

  predicate Checked(c: Input) {
    && c.post.members + c.fork.members <= c.jobs.Keys
    && ConditionsExact(c) && NeedsClosed(c) && Gated(c)
    && ArtifactSteps(c) && ConsumersListed(c)
  }

  lemma {:induction false} ErrorsEmpty(section: Section, c: Input, jobs: seq<string>)
    requires InJobs(section, c, jobs)
    ensures Errors(section, c, jobs) == [] <==> forall j :: j in jobs ==> ErrorsOf(section, c, j) == []
  {
    if jobs == [] {
    } else {
      hide ErrorsOf;
      ErrorsEmpty(section, c, jobs[1..]);
      assert forall j :: j in jobs <==> j == jobs[0] || j in jobs[1..];
    }
  }

  lemma NoneListed(c: Input)
    ensures Errors(Listed, c, ListedMissing(c)) == [] <==> c.post.members + c.fork.members <= c.jobs.Keys
  {
    hide StringOrder.Sorted;
    var listed := c.post.members + c.fork.members;
    ErrorsEmpty(Listed, c, ListedMissing(c));
    forall j | j in listed ensures j in c.jobs.Keys <==> j !in ListedMissing(c) {
      assert j in listed - c.jobs.Keys <==> j !in c.jobs.Keys;
    }
    assert forall j :: ErrorsOf(Listed, c, j) != [];
  }

  lemma NeedsEmptyOf(c: Input, name: PolicyName)
    ensures Errors(NeedsOf(name), c, JobsOf(c)) == [] <==> forall job :: job in c.jobs ==> Blocked(c, name, job) == {}
  {
    hide Blocked, JobsOf, Errors;
    ErrorsEmpty(NeedsOf(name), c, JobsOf(c));
    forall job | job in c.jobs ensures Blocked(c, name, job) == {} <==> ErrorsOf(NeedsOf(name), c, job) == [] {}
  }

  lemma NeedsEmpty(c: Input)
    ensures NeedsClosed(c)
       <==> Errors(NeedsOf(PostMerge), c, JobsOf(c)) == [] && Errors(NeedsOf(ForkPullRequest), c, JobsOf(c)) == []
  {
    hide Blocked, JobsOf, Errors;
    NeedsEmptyOf(c, PostMerge);
    NeedsEmptyOf(c, ForkPullRequest);
    if Errors(NeedsOf(PostMerge), c, JobsOf(c)) == [] && Errors(NeedsOf(ForkPullRequest), c, JobsOf(c)) == [] {
      forall name: PolicyName, job | job in c.jobs ensures Blocked(c, name, job) == {} {
        match name case PostMerge => case ForkPullRequest =>
      }
    }
  }

  predicate ConsumerListed(c: Input, job: string)
    requires job in c.jobs
  {
    Consumes(c.jobs[job]) ==>
      forall name: PolicyName :: ConsumerSet(c, name) ==> job in PolicyOf(c, name).members
  }

  lemma ConsumerErrorsEmpty(c: Input, job: string)
    requires job in c.jobs
    ensures ErrorsOf(Consumers, c, job) == [] <==> ConsumerListed(c, job)
  {
    hide Consumes;
    assert forall name: PolicyName ::
        ConsumerErrors(c, name, job) == [] <==> (ConsumerSet(c, name) ==> job in PolicyOf(c, name).members);
  }

  lemma ConsumersEmpty(c: Input)
    ensures Errors(Consumers, c, JobsOf(c)) == [] <==> ConsumersListed(c)
  {
    hide JobsOf, Errors, ErrorsOf, ConsumerListed;
    ErrorsEmpty(Consumers, c, JobsOf(c));
    forall job | job in c.jobs ensures ErrorsOf(Consumers, c, job) == [] <==> ConsumerListed(c, job) {
      ConsumerErrorsEmpty(c, job);
    }
  }

  lemma ConditionsEmpty(c: Input)
    ensures Errors(Conditions, c, JobsOf(c)) == [] <==> ConditionsExact(c)
  {
    hide ConditionExact, ExpectedCondition, Errors, JobsOf;
    ErrorsEmpty(Conditions, c, JobsOf(c));
  }

  lemma RequiredEmpty(c: Input)
    ensures RequiredErrors(c) == [] <==> Gated(c)
  {
    hide DisplayName, Errors, PostMergeJobs;
    ErrorsEmpty(Required, c, PostMergeJobs(c));
  }

  lemma ArtifactEmpty(c: Input)
    ensures ArtifactErrors(c) == [] <==> ArtifactSteps(c)
  {
    hide OnlyOne, IterSteps;
  }

  /** The checker reports nothing exactly when every checked condition holds. */
  lemma NoErrorsExactlyWhenChecked(c: Input)
    ensures AllErrors(c) == [] <==> Checked(c)
  {
    hide Errors, RequiredErrors, ArtifactErrors, ConditionsExact, NeedsClosed, Gated, ArtifactSteps, ConsumersListed;
    NoneListed(c);
    NeedsEmpty(c);
    ConsumersEmpty(c);
    ConditionsEmpty(c);
    RequiredEmpty(c);
    ArtifactEmpty(c);
  }
}
