/** Which jobs a CI run skips, and what the checker of the skip conditions guarantees about it. */
module WorkflowRuns {
  import opened Text
  import opened Expression
  import opened Workflow

  /** One run of the workflow: the event, and how conditions outside the modelled language come out. */
  datatype Run = Run(event: Event, unknown: Value -> bool)

  predicate Holds(cond: Option<Value>, run: Run) {
    match cond
    case None => true
    case Some(Other) => run.unknown(Other)
    case Some(Str(text)) =>
      match Meaning(text, run.event)
      case Some(b) => b
      case None => run.unknown(Str(text))
  }

  /** Jobs need only jobs that exist, and no job needs itself through others. */
  ghost predicate Acyclic(jobs: map<string, Job>, rank: map<string, nat>) {
    forall job :: job in jobs ==>
      job in rank
      && forall n :: NeedsJob(jobs[job], n) ==> n in jobs && n in rank && rank[n] < rank[job]
  }

  /** A job is skipped when its own condition fails, or when a job it needs is skipped. */
  ghost predicate Skipped(jobs: map<string, Job>, rank: map<string, nat>, run: Run, job: string)
    requires Acyclic(jobs, rank) && job in jobs
    decreases rank[job]
  {
    || !Holds(jobs[job].cond, run)
    || exists n :: NeedsJob(jobs[job], n) && Skipped(jobs, rank, run, n)
  }

  /** The policies say that the job is skipped. */
  predicate PolicySkips(c: Input, event: Event, job: string) {
    || (Eval(c.post.clause, event) && job in c.post.members)
    || (Eval(c.fork.clause, event) && job in c.fork.members)
  }

  predicate ValidClauses(c: Input) {
    Valid(c.post.clause) && Valid(c.fork.clause)
  }

  /** The condition a job must carry holds exactly when no policy skips the job. */
  lemma ExpectedConditionHolds(c: Input, run: Run, job: string)
    requires ValidClauses(c)
    ensures Holds(ConditionValue(ExpectedCondition(c, job)), run) <==> !PolicySkips(c, run.event, job)
  {
    hide Meaning, Render;
    var p, f := c.post.clause, c.fork.clause;
    var e :=
      if job in c.post.members && job in c.fork.members then And(Not(p), Not(f))
      else if job in c.post.members then Not(p) else Not(f);
    if Clauses(c, job) != [] {
      ConditionMeaning(e, run.event);
      NegatedText(p);
      NegatedText(f);
      BothText(p, f);
      assert Condition(e) == "${{ " + JoinNegated(Clauses(c, job)) + " }}";
    }
  }

  lemma NegatedText(p: Expr)
    ensures JoinNegated([p]) == Render(Not(p))
  {}

  lemma BothText(p: Expr, f: Expr)
    ensures JoinNegated([p] + [f]) == Render(And(Not(p), Not(f)))
  {
    assert ([p] + [f])[1..] == [f];
  }

  lemma JobHolds(c: Input, run: Run, job: string)
    requires ValidClauses(c) && ConditionsExact(c) && job in c.jobs
    ensures Holds(c.jobs[job].cond, run) <==> !PolicySkips(c, run.event, job)
  {
    hide Holds, ExpectedCondition;
    ExpectedConditionHolds(c, run, job);
    assert ConditionExact(c, job);
  }

  lemma NeedSkips(c: Input, event: Event, job: string, n: string)
    requires NeedsClosed(c) && job in c.jobs && NeedsJob(c.jobs[job], n) && PolicySkips(c, event, n)
    ensures PolicySkips(c, event, job)
  {
    NeedsAre(c.jobs[job], n);
    assert n in NeedSet(c.jobs[job]);
    assert Blocked(c, PostMerge, job) == {} && Blocked(c, ForkPullRequest, job) == {};
    assert job in c.post.members || n !in NeedSet(c.jobs[job]) * c.post.members;
    assert job in c.fork.members || n !in NeedSet(c.jobs[job]) * c.fork.members;
  }

  /** When the checker accepts, every run skips exactly the jobs of the policies whose clause
      holds, although skipping spreads along `needs`. */
  lemma {:induction false} SkipsExactly(c: Input, rank: map<string, nat>, run: Run, job: string)
    requires ValidClauses(c) && ConditionsExact(c) && NeedsClosed(c)
    requires Acyclic(c.jobs, rank) && job in c.jobs
    ensures Skipped(c.jobs, rank, run, job) <==> PolicySkips(c, run.event, job)
    decreases rank[job]
  {
    hide PolicySkips, Holds, NeedsClosed, ConditionsExact;
    JobHolds(c, run, job);
    forall n | NeedsJob(c.jobs[job], n)
      ensures Skipped(c.jobs, rank, run, n) ==> PolicySkips(c, run.event, job)
    {
      SkipsExactly(c, rank, run, n);
      if PolicySkips(c, run.event, n) { NeedSkips(c, run.event, job, n); }
    }
  }

  /** Given the right conditions on every job, and runs that tell the two clauses apart, the
      check of `needs` passes exactly when no job is skipped outside the policies. */
  lemma NeedsCheckIsExact(c: Input, rank: map<string, nat>, post: Run, fork: Run)
    requires ValidClauses(c) && ConditionsExact(c) && Acyclic(c.jobs, rank)
    requires Eval(c.post.clause, post.event) && !Eval(c.fork.clause, post.event)
    requires Eval(c.fork.clause, fork.event) && !Eval(c.post.clause, fork.event)
    ensures NeedsClosed(c)
       <==> forall job :: job in c.jobs ==>
              && (Skipped(c.jobs, rank, post, job) <==> PolicySkips(c, post.event, job))
              && (Skipped(c.jobs, rank, fork, job) <==> PolicySkips(c, fork.event, job))
  {
    hide Holds, ConditionsExact;
    if NeedsClosed(c) {
      forall job | job in c.jobs
        ensures Skipped(c.jobs, rank, post, job) <==> PolicySkips(c, post.event, job)
        ensures Skipped(c.jobs, rank, fork, job) <==> PolicySkips(c, fork.event, job)
      {
        SkipsExactly(c, rank, post, job);
        SkipsExactly(c, rank, fork, job);
      }
    } else {
      var name, job :| job in c.jobs && Blocked(c, name, job) != {};
      var n :| n in Blocked(c, name, job);
      NeedsAre(c.jobs[job], n);
      var run := if name.PostMerge? then post else fork;
      JobHolds(c, run, n);
      assert Skipped(c.jobs, rank, run, n);
      assert Skipped(c.jobs, rank, run, job) && !PolicySkips(c, run.event, job);
    }
  }

  /** What the checker's report claims: with the post-merge clause alone, the jobs skipped are
      the post-merge set; with the fork clause alone, the fork set; with neither, none. */
  lemma {:induction false} SkippedJobs(c: Input, rank: map<string, nat>, run: Run, skipped: set<string>)
    requires ValidClauses(c) && Checked(c) && Acyclic(c.jobs, rank)
    requires forall job :: job in skipped <==> job in c.jobs && Skipped(c.jobs, rank, run, job)
    ensures var p, f := Eval(c.post.clause, run.event), Eval(c.fork.clause, run.event);
            skipped == (if p then c.post.members else {}) + (if f then c.fork.members else {})
  {
    forall job | job in c.jobs
      ensures Skipped(c.jobs, rank, run, job) <==> PolicySkips(c, run.event, job)
    {
      SkipsExactly(c, rank, run, job);
    }
  }

  /** A job that downloads the artifact runs only when the job that produces it runs, and runs
      its archive step, and uploads once the archive has been made. */
  lemma ConsumersRunAfterProducer(c: Input, rank: map<string, nat>, run: Run, job: string)
    requires ValidClauses(c) && Checked(c) && Acyclic(c.jobs, rank)
    requires job in c.jobs && Consumes(c.jobs[job]) && !Skipped(c.jobs, rank, run, job)
    ensures !Skipped(c.jobs, rank, run, ARTIFACT_JOB)
    ensures var steps := IterSteps(c.jobs[ARTIFACT_JOB].steps);
            && Holds(ArchiveSteps(steps)[0].cond, run)
            && (run.event(ARCHIVED) ==> Holds(MovingSteps(steps, UPLOAD)[0].cond, run))
  {
    hide Consumes, Meaning, NeedsClosed, ConditionsExact;
    SkipsExactly(c, rank, run, job);
    SkipsExactly(c, rank, run, ARTIFACT_JOB);
    assert ConsumerListed(c, job);
    assert ConsumerSet(c, PostMerge) && (ARTIFACT_JOB in c.fork.members ==> ConsumerSet(c, ForkPullRequest));
    assert job in PolicyOf(c, PostMerge).members;
    assert ARTIFACT_JOB in c.fork.members ==> job in PolicyOf(c, ForkPullRequest).members;
    ArtifactConditions(c, run);
  }

  lemma ArchivedIsAtom()
    ensures Valid(Atom(ARCHIVED))
  {
    var other := {'&', '(', ')'};
    assert Free("steps.", other);
    assert Free(ARTIFACT_ARCHIVE_STEP, other);
    assert Free(".outcome == 'success'", other);
    FreeAppend(ARTIFACT_ARCHIVE_STEP, ".outcome == 'success'", other);
    FreeAppend("steps.", ARTIFACT_ARCHIVE_STEP + ".outcome == 'success'", other);
  }

  lemma UploadText(p: Expr)
    ensures Render(And(Atom(ARCHIVED), Not(p))) == ARCHIVED + " && " + ("!(" + Render(p) + ")")
  {
    assert Render(Atom(ARCHIVED)) == ARCHIVED;
    assert Render(Not(p)) == "!(" + Render(p) + ")";
  }

  lemma ArtifactConditions(c: Input, run: Run)
    requires ValidClauses(c)
    ensures Meaning(ArchiveCondition(c), run.event) == Some(!Eval(c.post.clause, run.event))
    ensures Meaning(UploadCondition(c), run.event)
         == Some(run.event(ARCHIVED) && !Eval(c.post.clause, run.event))
  {
    hide Meaning;
    var archive := Not(c.post.clause);
    var upload := And(Atom(ARCHIVED), archive);
    ArchivedIsAtom();
    ConditionMeaning(archive, run.event);
    assert Condition(archive) == ArchiveCondition(c);
    ConditionMeaning(upload, run.event);
    UploadText(c.post.clause);
  }

  // The two policies of the workflow

  const PUSH := "github.event_name" + " == 'push'"
  const MAIN_REF := "github.ref" + " == 'refs/heads/main'"
  const UPSTREAM := "github.repository" + " == 'apache/datafusion'"
  const PULL_REQUEST := "github.event_name" + " == 'pull_request'"
  const FROM_FORK := "github.event.pull_request" + ".head.repo.fork"
  const MAIN_BASE := "github.base_ref" + " == 'main'"

  /** A push to upstream main. */
  const POST_MERGE_PUSH := And(Atom(PUSH), And(Atom(MAIN_REF), Atom(UPSTREAM)))

  /** A pull request from a fork. */
  const FORK_PULL_REQUEST := And(Atom(PULL_REQUEST), And(Atom(FROM_FORK), Atom(MAIN_BASE)))

  datatype GithubEvent =
    GithubEvent(name: string, ref: string, repository: string, headIsFork: bool, baseRef: string)

  predicate IsPostMergePush(e: GithubEvent) {
    e.name == "push" && e.ref == "refs/heads/main" && e.repository == "apache/datafusion"
  }

  predicate IsForkPullRequest(e: GithubEvent) {
    e.name == "pull_request" && e.headIsFork && e.baseRef == "main"
  }

  /** The comparisons the clauses make, read off the event. */
  function Truth(e: GithubEvent): Event {
    text =>
      if text == PUSH then e.name == "push"
      else if text == MAIN_REF then e.ref == "refs/heads/main"
      else if text == UPSTREAM then e.repository == "apache/datafusion"
      else if text == PULL_REQUEST then e.name == "pull_request"
      else if text == FROM_FORK then e.headIsFork
      else if text == MAIN_BASE then e.baseRef == "main"
      else false
  }

  lemma AtomsDiffer()
    ensures |PUSH| == 27 && |MAIN_REF| == 31 && |UPSTREAM| == 40
    ensures |PULL_REQUEST| == 35 && |FROM_FORK| == 40 && |MAIN_BASE| == 25
    ensures UPSTREAM != FROM_FORK
  {
    assert UPSTREAM[7] == 'r' && FROM_FORK[7] == 'e';
  }

  lemma AtomOf(a: string, b: string)
    requires a != "" && Free(a, {'&', '(', ')'}) && Free(b, {'&', '(', ')'})
    ensures Valid(Atom(a + b))
  {}

  lemma PushIsAtom()
    ensures Valid(Atom(PUSH))
  {
    AtomOf("github.event_name", " == 'push'");
  }

  lemma MainRefIsAtom()
    ensures Valid(Atom(MAIN_REF))
  {
    AtomOf("github.ref", " == 'refs/heads/main'");
  }

  lemma UpstreamIsAtom()
    ensures Valid(Atom(UPSTREAM))
  {
    AtomOf("github.repository", " == 'apache/datafusion'");
  }

  lemma PullRequestIsAtom()
    ensures Valid(Atom(PULL_REQUEST))
  {
    AtomOf("github.event_name", " == 'pull_request'");
  }

  lemma FromForkIsAtom()
    ensures Valid(Atom(FROM_FORK))
  {
    AtomOf("github.event.pull_request", ".head.repo.fork");
  }

  lemma MainBaseIsAtom()
    ensures Valid(Atom(MAIN_BASE))
  {
    AtomOf("github.base_ref", " == 'main'");
  }

  lemma ClausesAreValid()
    ensures Valid(POST_MERGE_PUSH) && Valid(FORK_PULL_REQUEST)
  {
    PushIsAtom();
    MainRefIsAtom();
    UpstreamIsAtom();
    PullRequestIsAtom();
    FromForkIsAtom();
    MainBaseIsAtom();
    assert Valid(And(Atom(MAIN_REF), Atom(UPSTREAM)));
    assert Valid(And(Atom(FROM_FORK), Atom(MAIN_BASE)));
  }

  lemma ClauseOnEvent(e: GithubEvent)
    ensures Eval(POST_MERGE_PUSH, Truth(e)) <==> IsPostMergePush(e)
    ensures Eval(FORK_PULL_REQUEST, Truth(e)) <==> IsForkPullRequest(e)
    ensures !(IsPostMergePush(e) && IsForkPullRequest(e))
  {
    AtomsDiffer();
    var t := Truth(e);
    assert Eval(POST_MERGE_PUSH, t) <==> t(PUSH) && Eval(And(Atom(MAIN_REF), Atom(UPSTREAM)), t);
    assert Eval(FORK_PULL_REQUEST, t) <==> t(PULL_REQUEST) && Eval(And(Atom(FROM_FORK), Atom(MAIN_BASE)), t);
    assert t(PUSH) == (e.name == "push") && t(PULL_REQUEST) == (e.name == "pull_request");
    assert t(FROM_FORK) == e.headIsFork && t(MAIN_BASE) == (e.baseRef == "main");
    assert Eval(And(Atom(FROM_FORK), Atom(MAIN_BASE)), t) == (t(FROM_FORK) && t(MAIN_BASE));
    assert |"push"| != |"pull_request"|;
  }

  /** On a push to upstream main exactly the post-merge jobs are skipped, on a pull request from
      a fork exactly the fork jobs, and on any other event none. */
  lemma {:induction false} SkippedOnEvent(c: Input, rank: map<string, nat>, e: GithubEvent, unknown: Value -> bool,
                                          skipped: set<string>)
    requires c.post.clause == POST_MERGE_PUSH && c.fork.clause == FORK_PULL_REQUEST
    requires AllErrors(c) == [] && Acyclic(c.jobs, rank)
    requires forall job :: job in skipped
               <==> job in c.jobs && Skipped(c.jobs, rank, Run(Truth(e), unknown), job)
    ensures skipped == if IsPostMergePush(e) then c.post.members
                       else if IsForkPullRequest(e) then c.fork.members else {}
  {
    hide AllErrors, Checked, IsPostMergePush, IsForkPullRequest, Truth;
    NoErrorsExactlyWhenChecked(c);
    ClausesAreValid();
    SkippedJobs(c, rank, Run(Truth(e), unknown), skipped);
    ClauseOnEvent(e);
  }
}
