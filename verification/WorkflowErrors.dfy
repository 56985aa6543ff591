/** What each error of the skip condition checker says about the workflow
    (ci/scripts/check_rust_workflow_skips.py). */
module WorkflowErrors {
  import opened Text
  import opened Expression
  import opened Workflow
  import opened WorkflowRuns
  import StringOrder

  function MembersOf(c: Input, name: PolicyName): set<string> {
    match name case PostMerge => c.post.members case ForkPullRequest => c.fork.members
  }

  /** The `if:` that a job of one or both sets must carry. */
  function Wanted(c: Input, job: string): string {
    var post, fork := "!(" + Render(c.post.clause) + ")", "!(" + Render(c.fork.clause) + ")";
    if job in c.post.members && job in c.fork.members then "${{ " + (post + " && " + fork) + " }}"
    else if job in c.post.members then "${{ " + post + " }}"
    else "${{ " + fork + " }}"
  }

  predicate IsArchive(s: Step) {
    s.id == Some("archive-check")
  }

  predicate IsUpload(s: Step) {
    "actions/upload-artifact" <= s.uses && s.artifact == Some("cargo-check")
  }

  predicate IsDownload(s: Step) {
    "actions/download-artifact" <= s.uses && s.artifact == Some("cargo-check")
  }

  /** One of the steps is of the kind, and it carries the condition. */
  ghost predicate OneWith(steps: seq<Step>, kind: Step -> bool, condition: string) {
    exists i :: 0 <= i < |steps| && IsOnly(steps, kind, i) && steps[i].cond == Some(Str(condition))
  }

  ghost predicate IsOnly(steps: seq<Step>, kind: Step -> bool, i: int)
    requires 0 <= i < |steps|
  {
    kind(steps[i]) && forall j :: 0 <= j < |steps| && j != i ==> !kind(steps[j])
  }

  /** What an error says. */
  ghost predicate Means(c: Input, e: Error) {
    match e
    case MissingJob(job) => (job in c.post.members || job in c.fork.members) && job !in c.jobs
    case UnexpectedCondition(job) =>
      job in c.jobs && job !in c.post.members && job !in c.fork.members && c.jobs[job].cond.Some?
    case WrongCondition(job, expected) =>
      && job in c.jobs && (job in c.post.members || job in c.fork.members)
      && expected == Wanted(c, job) && c.jobs[job].cond != Some(Str(expected))
    case BlockedByNeeds(job, name, blocked) =>
      && job in c.jobs && job !in MembersOf(c, name)
      && blocked != [] && StringOrder.Ascending(blocked)
      && forall n :: n in blocked <==> NeedsJob(c.jobs[job], n) && n in MembersOf(c, name)
    case NotRequired(job) =>
      && c.required != {} && job in c.post.members && job in c.jobs
      && (c.jobs[job].name.Some? ==> c.jobs[job].name.value !in c.required)
      && (c.jobs[job].name.None? ==> job !in c.required)
    case NoArtifactJob => "linux-build-lib" !in c.jobs
    case BadArchiveStep =>
      && "linux-build-lib" in c.jobs
      && !OneWith(IterSteps(c.jobs["linux-build-lib"].steps), IsArchive,
                  "${{ " + "!(" + Render(c.post.clause) + ")" + " }}")
    case BadUploadStep =>
      && "linux-build-lib" in c.jobs
      && !OneWith(IterSteps(c.jobs["linux-build-lib"].steps), IsUpload,
                  "${{ " + "steps." + "archive-check" + ".outcome == 'success'" + " && " + "!("
                  + Render(c.post.clause) + ")" + " }}")
    case UnlistedConsumer(job, name) =>
      && job in c.jobs && (exists s :: HasStep(c.jobs[job], s) && IsDownload(s))
      && job !in MembersOf(c, name) && (name.PostMerge? || "linux-build-lib" in c.fork.members)
  }

  // Steps

  lemma {:induction false} PresentAre(steps: seq<Option<Step>>, s: Step)
    ensures s in Present(steps) <==> Some(s) in steps
  {
    if steps == [] {
    } else {
      PresentAre(steps[1..], s);
      assert steps == [steps[0]] + steps[1..];
    }
  }

  lemma {:induction false} StepsAre(entries: seq<StepEntry>, s: Step)
    ensures s in IterSteps(entries) <==> exists e <- entries :: e == One(s) || (e.Parallel? && Some(s) in e.steps)
  {
    if entries == [] {
    } else {
      var e, rest := entries[0], entries[1..];
      assert entries == [e] + rest && e in entries;
      StepsAre(rest, s);
      if e.Parallel? { PresentAre(e.steps, s); }
      if d :| d in rest && (d == One(s) || (d.Parallel? && Some(s) in d.steps)) { assert d in entries; }
    }
  }

  /** The steps of one kind, in order. */
  function OfKind(steps: seq<Step>, kind: Step -> bool): seq<Step> {
    if steps == [] then [] else (if kind(steps[0]) then [steps[0]] else []) + OfKind(steps[1..], kind)
  }

  lemma {:induction false} KindsAre(steps: seq<Step>)
    ensures ArchiveSteps(steps) == OfKind(steps, IsArchive)
    ensures MovingSteps(steps, UPLOAD) == OfKind(steps, IsUpload)
    ensures MovingSteps(steps, DOWNLOAD) == OfKind(steps, IsDownload)
  {
    if steps == [] {
    } else {
      KindsAre(steps[1..]);
    }
  }

  lemma {:induction false} SomeOfKind(steps: seq<Step>, kind: Step -> bool)
    ensures OfKind(steps, kind) == [] <==> forall s <- steps :: !kind(s)
  {
    if steps == [] {
    } else {
      SomeOfKind(steps[1..], kind);
      assert steps == [steps[0]] + steps[1..];
    }
  }

  lemma NoneOfKind(steps: seq<Step>, kind: Step -> bool, i: int)
    requires 0 <= i < |steps| && IsOnly(steps, kind, i)
    ensures OfKind(steps[i + 1..], kind) == [] && OfKind(steps[..i], kind) == []
  {
    hide OfKind;
    SomeOfKind(steps[i + 1..], kind);
    SomeOfKind(steps[..i], kind);
    forall s <- steps[i + 1..] ensures !kind(s) {
      var j :| 0 <= j < |steps[i + 1..]| && steps[i + 1..][j] == s;
      assert steps[i + 1 + j] == s;
    }
  }

  lemma {:induction false} OfKindAppend(a: seq<Step>, b: seq<Step>, kind: Step -> bool)
    ensures OfKind(a + b, kind) == OfKind(a, kind) + OfKind(b, kind)
  {
    if a == [] {
      assert a + b == b;
    } else {
      OfKindAppend(a[1..], b, kind);
      assert (a + b)[1..] == a[1..] + b;
    }
  }

  lemma OnlyIsKept(steps: seq<Step>, kind: Step -> bool, i: int)
    requires 0 <= i < |steps| && IsOnly(steps, kind, i)
    ensures OfKind(steps, kind) == [steps[i]]
  {
    NoneOfKind(steps, kind, i);
    var rest := steps[i..];
    assert steps == steps[..i] + rest && rest[1..] == steps[i + 1..] && rest[0] == steps[i];
    OfKindAppend(steps[..i], rest, kind);
  }

  lemma {:induction false} KeptIsOnly(steps: seq<Step>, kind: Step -> bool) returns (i: nat)
    requires |OfKind(steps, kind)| == 1
    ensures i < |steps| && IsOnly(steps, kind, i)
  {
    var rest := steps[1..];
    if kind(steps[0]) {
      i := 0;
      SomeOfKind(rest, kind);
      forall j | 0 <= j < |steps| && j != 0 ensures !kind(steps[j]) { assert rest[j - 1] in rest; }
    } else {
      i := KeptIsOnly(rest, kind);
      forall j | 0 <= j < |steps| && j != i + 1 ensures !kind(steps[j]) {
        if j > 0 { assert !kind(rest[j - 1]); }
      }
      i := i + 1;
    }
  }

  lemma OneWithCondition(steps: seq<Step>, kind: Step -> bool, condition: string)
    ensures OnlyOne(OfKind(steps, kind), condition) <==> OneWith(steps, kind, condition)
  {
    hide OfKind, IsOnly;
    if OnlyOne(OfKind(steps, kind), condition) {
      var i := KeptIsOnly(steps, kind);
      OnlyIsKept(steps, kind, i);
    }
    if i :| 0 <= i < |steps| && IsOnly(steps, kind, i) && steps[i].cond == Some(Str(condition)) {
      OnlyIsKept(steps, kind, i);
    }
  }

  lemma ConsumesAre(j: Job)
    ensures Consumes(j) <==> exists s :: HasStep(j, s) && IsDownload(s)
  {
    hide IterSteps, OfKind, MovingSteps;
    var steps := IterSteps(j.steps);
    KindsAre(steps);
    SomeOfKind(steps, IsDownload);
    if s :| HasStep(j, s) && IsDownload(s) { StepsAre(j.steps, s); }
    if s :| s in steps && IsDownload(s) {
      StepsAre(j.steps, s);
      assert HasStep(j, s);
    }
  }

  // Errors

  lemma {:induction false} ErrorsIn(section: Section, c: Input, jobs: seq<string>, e: Error)
    requires InJobs(section, c, jobs)
    ensures e in Errors(section, c, jobs) <==> exists job <- jobs :: e in ErrorsOf(section, c, job)
  {
    hide ErrorsOf;
    if jobs == [] {
    } else {
      assert jobs[0] in jobs;
      ErrorsIn(section, c, jobs[1..], e);
      assert jobs == [jobs[0]] + jobs[1..];
    }
  }

  lemma WantedIs(c: Input, job: string)
    ensures ExpectedCondition(c, job)
         == if job in c.post.members || job in c.fork.members then Some(Wanted(c, job)) else None
  {
    hide Render;
    var p, f := c.post.clause, c.fork.clause;
    assert JoinNegated([p]) == "!(" + Render(p) + ")" && JoinNegated([f]) == "!(" + Render(f) + ")";
    assert ([p] + [f])[1..] == [f];
    assert [] + [f] == [f] && [p] + [] == [p];
  }

  lemma ListedMeans(c: Input, e: Error)
    ensures e in Errors(Listed, c, ListedMissing(c)) <==> e.MissingJob? && Means(c, e)
  {
    hide Errors, StringOrder.Sorted;
    ErrorsIn(Listed, c, ListedMissing(c), e);
    if e.MissingJob? { assert e.job in ListedMissing(c) <==> Means(c, e); }
  }

  lemma ConditionsMean(c: Input, e: Error)
    ensures e in Errors(Conditions, c, JobsOf(c)) <==> (e.UnexpectedCondition? || e.WrongCondition?) && Means(c, e)
  {
    hide Errors, JobsOf, ExpectedCondition, Wanted;
    ErrorsIn(Conditions, c, JobsOf(c), e);
    if e.UnexpectedCondition? || e.WrongCondition? {
      WantedIs(c, e.job);
      if e.job in c.jobs { assert e in ErrorsOf(Conditions, c, e.job) <==> Means(c, e); }
    }
  }

  lemma BlockedIs(c: Input, name: PolicyName, job: string, n: string)
    requires job in c.jobs
    ensures n in Blocked(c, name, job) <==>
            job !in MembersOf(c, name) && NeedsJob(c.jobs[job], n) && n in MembersOf(c, name)
  {
    NeedsAre(c.jobs[job], n);
  }

  /** A set has one ascending list. */
  lemma {:induction false} SortedIsOnly(s: set<string>, r: seq<string>)
    requires StringOrder.Ascending(r) && forall x :: x in r <==> x in s
    ensures r == StringOrder.Sorted(s)
    decreases |s|
  {
    hide StringOrder.Le;
    if r == [] {
      forall x ensures x !in s { assert x in r <==> x in s; }
      assert s == {};
    } else {
      assert r[0] in r && r[0] in s;
      var m := StringOrder.Least(s);
      var k :| 0 <= k < |r| && r[k] == m;
      if k > 0 { StringOrder.Antisymmetric(r[0], m); }
      assert r[0] == m;
      var rest := r[1..];
      assert r == [m] + rest;
      forall x ensures x in rest <==> x in s - {m} {
        if x in rest {
          var j :| 0 <= j < |rest| && rest[j] == x;
          assert r[j + 1] == x && r[0] != r[j + 1];
        }
      }
      assert StringOrder.Ascending(rest) by { AscendingRest(r); }
      SortedIsOnly(s - {m}, rest);
    }
  }

  lemma AscendingRest(r: seq<string>)
    requires r != [] && StringOrder.Ascending(r)
    ensures StringOrder.Ascending(r[1..])
  {
  }

  lemma NeedsMean(c: Input, name: PolicyName, e: Error)
    ensures e in Errors(NeedsOf(name), c, JobsOf(c)) <==> e.BlockedByNeeds? && e.name == name && Means(c, e)
  {
    hide Errors, JobsOf, Blocked, StringOrder.Sorted, StringOrder.Ascending, NeedsJob;
    ErrorsIn(NeedsOf(name), c, JobsOf(c), e);
    if e.BlockedByNeeds? && e.job in c.jobs {
      var b := Blocked(c, name, e.job);
      forall n
        ensures n in b <==> e.job !in MembersOf(c, name) && NeedsJob(c.jobs[e.job], n) && n in MembersOf(c, name)
      {
        BlockedIs(c, name, e.job, n);
      }
      StringOrder.SortedIsAscending(b);
      if e.name == name && Means(c, e) {
        SortedIsOnly(b, e.blocked);
        assert e.blocked[0] in e.blocked;
      }
      if e in ErrorsOf(NeedsOf(name), c, e.job) { assert b != {}; }
    }
  }

  lemma RequiredMeans(c: Input, e: Error)
    ensures e in RequiredErrors(c) <==> e.NotRequired? && Means(c, e)
  {
    hide Errors, PostMergeJobs;
    ErrorsIn(Required, c, PostMergeJobs(c), e);
    if e.NotRequired? && e.job in c.jobs {
      assert e in ErrorsOf(Required, c, e.job) <==> DisplayName(c, e.job) !in c.required;
    }
  }

  lemma ArtifactMeans(c: Input, e: Error)
    ensures e in ArtifactErrors(c) <==> (e.NoArtifactJob? || e.BadArchiveStep? || e.BadUploadStep?) && Means(c, e)
  {
    hide OneWith, OnlyOne, IterSteps, Render, ArchiveSteps, MovingSteps, OfKind;
    if ARTIFACT_JOB in c.jobs {
      var steps := IterSteps(c.jobs[ARTIFACT_JOB].steps);
      KindsAre(steps);
      TextsAre(c);
      OneWithCondition(steps, IsArchive, ArchiveCondition(c));
      OneWithCondition(steps, IsUpload, UploadCondition(c));
    }
  }

  lemma TextsAre(c: Input)
    ensures ArchiveCondition(c) == "${{ " + "!(" + Render(c.post.clause) + ")" + " }}"
    ensures UploadCondition(c)
         == "${{ " + "steps." + "archive-check" + ".outcome == 'success'" + " && " + "!("
            + Render(c.post.clause) + ")" + " }}"
  {
    hide Render;
    var r := Render(c.post.clause);
    Flattened("${{ ", "!(", r, ")");
    Prefixed("${{ ", "steps.", "archive-check", ".outcome == 'success'", " && ", "!(" + r + ")");
    Flattened("${{ " + "steps." + "archive-check" + ".outcome == 'success'" + " && ", "!(", r, ")");
  }

  lemma Flattened(a: string, b: string, c: string, d: string)
    ensures a + (b + c + d) == a + b + c + d
  {
  }

  lemma Prefixed(a: string, b: string, c: string, d: string, e: string, f: string)
    ensures a + (b + (c + d) + e + f) == a + b + c + d + e + f
  {
    assert b + (c + d) == b + c + d;
    assert a + (b + c + d + e + f) == a + (b + c + d + e) + f;
    assert a + (b + c + d + e) == a + b + c + d + e;
  }

  lemma ConsumersMean(c: Input, e: Error)
    ensures e in Errors(Consumers, c, JobsOf(c)) <==> e.UnlistedConsumer? && Means(c, e)
  {
    hide Errors, JobsOf, Consumes, HasStep, IsDownload;
    ErrorsIn(Consumers, c, JobsOf(c), e);
    if e.UnlistedConsumer? && e.job in c.jobs {
      ConsumesAre(c.jobs[e.job]);
      assert e in ErrorsOf(Consumers, c, e.job) <==> Means(c, e);
    }
  }

  /** The report has exactly the errors that hold of the workflow. */
  lemma ReportMeans(c: Input, e: Error)
    ensures e in AllErrors(c) <==> Means(c, e)
  {
    hide Errors, RequiredErrors, ArtifactErrors, JobsOf, ListedMissing, Means;
    ListedMeans(c, e);
    ConditionsMean(c, e);
    NeedsMean(c, PostMerge, e);
    NeedsMean(c, ForkPullRequest, e);
    RequiredMeans(c, e);
    ArtifactMeans(c, e);
    ConsumersMean(c, e);
  }

  // The artifact

  /** The one step of a kind. */
  lemma OnlyStep(j: Job, kind: Step -> bool, condition: string, s: Step)
    requires OneWith(IterSteps(j.steps), kind, condition) && HasStep(j, s) && kind(s)
    ensures s.cond == Some(Str(condition))
  {
    hide IterSteps;
    StepsAre(j.steps, s);
    var k :| 0 <= k < |IterSteps(j.steps)| && IterSteps(j.steps)[k] == s;
  }

  lemma ThereIsOne(j: Job, kind: Step -> bool, condition: string)
    requires OneWith(IterSteps(j.steps), kind, condition)
    ensures exists s :: HasStep(j, s) && kind(s)
  {
    hide IterSteps;
    var steps := IterSteps(j.steps);
    var i :| 0 <= i < |steps| && IsOnly(steps, kind, i) && steps[i].cond == Some(Str(condition));
    StepsAre(j.steps, steps[i]);
    assert HasStep(j, steps[i]);
  }

  lemma MakerRuns(c: Input, rank: map<string, nat>, run: Run, job: string)
    requires ValidClauses(c) && AllErrors(c) == [] && Acyclic(c.jobs, rank) && job in c.jobs
    requires (exists s :: HasStep(c.jobs[job], s) && IsDownload(s)) && !Skipped(c.jobs, rank, run, job)
    ensures "linux-build-lib" in c.jobs && !Skipped(c.jobs, rank, run, "linux-build-lib")
    ensures !Eval(c.post.clause, run.event)
  {
    hide AllErrors, Skipped, HasStep, IsDownload, Holds, ConditionsExact, NeedsClosed, Gated, ArtifactSteps;
    hide ConsumersListed;
    NoErrorsExactlyWhenChecked(c);
    ConsumesAre(c.jobs[job]);
    ConsumersRunAfterProducer(c, rank, run, job);
    SkipsExactly(c, rank, run, job);
    ReportMeans(c, UnlistedConsumer(job, PostMerge));
    ReportMeans(c, NoArtifactJob);
  }

  lemma MakerHasSteps(c: Input, run: Run)
    requires ValidClauses(c) && AllErrors(c) == [] && !Eval(c.post.clause, run.event) && "linux-build-lib" in c.jobs
    ensures var maker := c.jobs["linux-build-lib"];
            && (exists s :: HasStep(maker, s) && IsArchive(s)) && (exists s :: HasStep(maker, s) && IsUpload(s))
            && (forall s :: HasStep(maker, s) && IsArchive(s) ==> Holds(s.cond, run))
            && forall s :: HasStep(maker, s) && IsUpload(s) ==>
                 (run.event("steps." + ("archive-check" + ".outcome == 'success'")) ==> Holds(s.cond, run))
  {
    hide AllErrors, HasStep, IsArchive, IsUpload, OneWith, IterSteps, Meaning, ArchiveCondition, UploadCondition;
    hide Render;
    var maker := c.jobs["linux-build-lib"];
    ReportMeans(c, BadArchiveStep);
    ReportMeans(c, BadUploadStep);
    TextsAre(c);
    ArtifactConditions(c, run);
    ThereIsOne(maker, IsArchive, ArchiveCondition(c));
    ThereIsOne(maker, IsUpload, UploadCondition(c));
    forall s | HasStep(maker, s) && IsArchive(s) ensures Holds(s.cond, run) {
      OnlyStep(maker, IsArchive, ArchiveCondition(c), s);
    }
    forall s | HasStep(maker, s) && IsUpload(s) && run.event(ARCHIVED) ensures Holds(s.cond, run) {
      OnlyStep(maker, IsUpload, UploadCondition(c), s);
    }
  }

  /** When nothing is reported, a job that downloads the artifact runs only when the job that makes it runs
      too; that job has a step that archives it, which then runs, and one that uploads it, which runs once
      it is archived. */
  lemma DownloadsFollowUploads(c: Input, rank: map<string, nat>, run: Run, job: string)
    requires ValidClauses(c) && AllErrors(c) == [] && Acyclic(c.jobs, rank) && job in c.jobs
    requires (exists s :: HasStep(c.jobs[job], s) && IsDownload(s)) && !Skipped(c.jobs, rank, run, job)
    ensures "linux-build-lib" in c.jobs && !Skipped(c.jobs, rank, run, "linux-build-lib")
    ensures var maker := c.jobs["linux-build-lib"];
            && (exists s :: HasStep(maker, s) && IsArchive(s)) && (exists s :: HasStep(maker, s) && IsUpload(s))
            && (forall s :: HasStep(maker, s) && IsArchive(s) ==> Holds(s.cond, run))
            && forall s :: HasStep(maker, s) && IsUpload(s) ==>
                 (run.event("steps." + ("archive-check" + ".outcome == 'success'")) ==> Holds(s.cond, run))
  {
    hide AllErrors, Skipped, HasStep, IsArchive, IsUpload, IsDownload, Holds;
    MakerRuns(c, rank, run, job);
    MakerHasSteps(c, run);
  }

  /** The clauses are those of the workflow, to the letter. */
  lemma ClauseTexts()
    ensures Render(POST_MERGE_PUSH)
         == "github.event_name" + " == 'push'" + " && " + ("github.ref" + " == 'refs/heads/main'") + " && "
            + ("github.repository" + " == 'apache/datafusion'")
    ensures Render(FORK_PULL_REQUEST)
         == "github.event_name" + " == 'pull_request'" + " && " + ("github.event.pull_request" + ".head.repo.fork")
            + " && " + ("github.base_ref" + " == 'main'")
  {
    hide PUSH, MAIN_REF, UPSTREAM, PULL_REQUEST, FROM_FORK, MAIN_BASE;
    assert Render(And(Atom(MAIN_REF), Atom(UPSTREAM))) == MAIN_REF + " && " + UPSTREAM;
    assert Render(And(Atom(FROM_FORK), Atom(MAIN_BASE))) == FROM_FORK + " && " + MAIN_BASE;
    Flattened(PUSH + " && ", MAIN_REF, " && ", UPSTREAM);
    Flattened(PULL_REQUEST + " && ", FROM_FORK, " && ", MAIN_BASE);
    AtomTexts();
  }

  lemma AtomTexts()
    ensures PUSH == "github.event_name" + " == 'push'" && MAIN_REF == "github.ref" + " == 'refs/heads/main'"
    ensures UPSTREAM == "github.repository" + " == 'apache/datafusion'"
    ensures PULL_REQUEST == "github.event_name" + " == 'pull_request'"
    ensures FROM_FORK == "github.event.pull_request" + ".head.repo.fork"
    ensures MAIN_BASE == "github.base_ref" + " == 'main'"
  {
  }
}
