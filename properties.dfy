/** What the scraper promises, proved about the reference definition of a
    run (FetchLoop.Expected), which the method ScrapeImagesFromPages is
    proved to compute. */
module Properties {
  import opened Text
  import opened Targets
  import opened FetchLoop

  /** Probe `a` comes before probe `b`: an earlier page, or the same page
      and a smaller index. */
  predicate Precedes(a: Step, b: Step) {
    a.page < b.page || (a.page == b.page && a.idx < b.idx)
  }

  /* ---------------------------------------------------------------------- */
  /* Validation and the two directory failures. */

  /** A configuration that breaks a constraint is refused with the first
      constraint it breaks, before any directory is created or any URL is
      requested. */
  lemma RejectedRunDoesNothing(cfg: Config, env: Env)
    requires !Valid(cfg)
    ensures var run := Expected(cfg, env);
      && run.outcome.Rejected?
      && Violates(cfg, run.outcome.error)
      && (forall e :: Rank(e) < Rank(run.outcome.error) ==> !Violates(cfg, e))
      && run.reports == [] && run.steps == [] && run.entries == env.present
  {
  }

  /** A missing output directory that cannot be created ends the run before
      any page is processed. */
  lemma RootFailureIsFatal(cfg: Config, env: Env)
    requires Valid(cfg)
    requires cfg.outputDirectory !in env.present && cfg.outputDirectory in env.denied
    ensures var run := Expected(cfg, env);
      run.outcome == RootFailed && run.reports == [] && run.steps == [] && run.entries == env.present
  {
  }

  lemma {:induction false} ReportsUpToIndex(cfg: Config, env: Env, n: nat)
    requires cfg.maxImagesPerPage >= 1
    ensures |ReportsUpTo(cfg, env, n)| == n
    ensures forall k :: 0 <= k < n ==> ReportsUpTo(cfg, env, n)[k] == ReportOf(cfg, env, k + 1)
  {
    if n > 0 {
      ReportsUpToIndex(cfg, env, n - 1);
    }
  }

  /** Once the output directory is there, every page 1..numPages gets its
      report, in order, and a page is skipped exactly when its own
      directory is missing and cannot be created. */
  lemma EveryPageReported(cfg: Config, env: Env)
    requires Valid(cfg) && RootReady(cfg, env)
    ensures var run := Expected(cfg, env);
      && run.outcome == Completed
      && |run.reports| == cfg.numPages
      && (forall k :: 0 <= k < cfg.numPages ==> run.reports[k] == ReportOf(cfg, env, k + 1))
      && (forall k :: 0 <= k < cfg.numPages ==>
            (run.reports[k].DirFailed? <==>
               PageDir(cfg, k + 1) !in env.present && PageDir(cfg, k + 1) in env.denied))
  {
    ReportsUpToIndex(cfg, env, cfg.numPages);
  }

  lemma ProbesAgree(cfg: Config, env: Env, env': Env, page: nat, k: nat)
    requires env'.present == env.present && env'.server == env.server
    ensures Probes(cfg, env', page, k) == Probes(cfg, env, page, k)
  {
  }

  /** Making page p's directory uncreatable changes no other page. */
  lemma OtherPageUnaffected(cfg: Config, env: Env, p: nat, q: nat)
    requires cfg.maxImagesPerPage >= 1 && p != q
    ensures var env' := env.(denied := env.denied + {PageDir(cfg, p)});
      && RootReady(cfg, env') == RootReady(cfg, env)
      && ReportOf(cfg, env', q) == ReportOf(cfg, env, q)
      && PageSteps(cfg, env', q) == PageSteps(cfg, env, q)
  {
    var env' := env.(denied := env.denied + {PageDir(cfg, p)});
    PageDirInjective(cfg, p, q);
    assert |PageDir(cfg, p)| > |cfg.outputDirectory|;
    assert forall j :: Kind(cfg, env', q, j) == Kind(cfg, env, q, j);
    var last := LastIndex(cfg, env, q, 1);
    assert last == cfg.maxImagesPerPage || Kind(cfg, env', q, last).Failed?;
    LastIndexIs(cfg, env', q, last);
    ProbesAgree(cfg, env, env', q, last);
  }

  /** A page whose directory cannot be created is skipped on its own: every
      other page's report is what it would have been. */
  lemma PageDirFailureIsLocal(cfg: Config, env: Env, p: nat)
    requires Valid(cfg) && RootReady(cfg, env) && 1 <= p <= cfg.numPages
    ensures var env' := env.(denied := env.denied + {PageDir(cfg, p)});
      var run, run' := Expected(cfg, env), Expected(cfg, env');
      && run'.outcome == Completed
      && |run'.reports| == |run.reports| == cfg.numPages
      && run'.reports[p - 1] == (if PageDir(cfg, p) in env.present then run.reports[p - 1] else DirFailed(p))
      && forall k :: 0 <= k < cfg.numPages && k != p - 1 ==> run'.reports[k] == run.reports[k]
  {
    var env' := env.(denied := env.denied + {PageDir(cfg, p)});
    assert |PageDir(cfg, p)| > |cfg.outputDirectory|;
    EveryPageReported(cfg, env);
    EveryPageReported(cfg, env');
    forall k | 0 <= k < cfg.numPages && k != p - 1
      ensures Expected(cfg, env').reports[k] == Expected(cfg, env).reports[k]
    {
      OtherPageUnaffected(cfg, env, p, k + 1);
    }
    OwnPageDirDenied(cfg, env, p);
  }

  /** Page p itself: skipped, unless its directory was already there. */
  lemma OwnPageDirDenied(cfg: Config, env: Env, p: nat)
    requires cfg.maxImagesPerPage >= 1
    ensures var env' := env.(denied := env.denied + {PageDir(cfg, p)});
      ReportOf(cfg, env', p)
      == (if PageDir(cfg, p) in env.present then ReportOf(cfg, env, p) else DirFailed(p))
  {
    var env' := env.(denied := env.denied + {PageDir(cfg, p)});
    if PageDir(cfg, p) in env.present {
      assert forall j :: Kind(cfg, env', p, j) == Kind(cfg, env, p, j);
      var last := LastIndex(cfg, env, p, 1);
      assert last == cfg.maxImagesPerPage || Kind(cfg, env', p, last).Failed?;
      LastIndexIs(cfg, env', p, last);
    }
  }

  /* ---------------------------------------------------------------------- */
  /* Order of the probes. */

  lemma {:induction false} StepsUpToAscending(cfg: Config, env: Env, n: nat)
    requires cfg.maxImagesPerPage >= 1
    ensures forall k, l :: 0 <= k < l < |StepsUpTo(cfg, env, n)| ==>
      Precedes(StepsUpTo(cfg, env, n)[k], StepsUpTo(cfg, env, n)[l])
  {
    if n > 0 {
      StepsUpToAscending(cfg, env, n - 1);
      StepsUpToBounds(cfg, env, n - 1);
      var a: seq<Step> := StepsUpTo(cfg, env, n - 1);
      var b: seq<Step> := PageSteps(cfg, env, n);
      assert forall t :: 0 <= t < |b| ==> b[t].page == n && b[t].idx == t + 1;
      forall k, l | 0 <= k < l < |a + b| ensures Precedes((a + b)[k], (a + b)[l]) {
        if l < |a| {
          assert (a + b)[k] == a[k] && (a + b)[l] == a[l];
          assert Precedes(a[k], a[l]);
        } else if k < |a| {
          assert (a + b)[k] == a[k] && (a + b)[l] == b[l - |a|];
          assert a[k].page <= n - 1;
          assert b[l - |a|].page == n;
        } else {
          assert (a + b)[k] == b[k - |a|] && (a + b)[l] == b[l - |a|];
          assert b[k - |a|].page == n && b[k - |a|].idx == k - |a| + 1;
          assert b[l - |a|].page == n && b[l - |a|].idx == l - |a| + 1;
        }
      }
      assert StepsUpTo(cfg, env, n) == a + b;
    }
  }

  /** Every run probes pages in ascending order and, within a page, indices
      in ascending order: each probe strictly follows the ones before it. */
  lemma StepsStrictlyAscending(cfg: Config, env: Env)
    ensures forall k, l :: 0 <= k < l < |Expected(cfg, env).steps| ==>
      Precedes(Expected(cfg, env).steps[k], Expected(cfg, env).steps[l])
  {
    if Valid(cfg) && RootReady(cfg, env) {
      assert Validate(cfg) == Accepted;
      StepsUpToAscending(cfg, env, cfg.numPages);
    }
  }

  /** A probed page's probes are indices 1..lastIdx in order; none fails
      before the last one, so no index is probed after the inner loop
      stops; the page ends for the reason the last probe gives. */
  lemma PageProbesExact(cfg: Config, env: Env, p: nat)
    requires cfg.maxImagesPerPage >= 1 && DirReady(cfg, env, p)
    ensures var r, s := ReportOf(cfg, env, p), PageSteps(cfg, env, p);
      && r.Probed?
      && 1 <= r.lastIdx <= cfg.maxImagesPerPage
      && |s| == r.lastIdx
      && (forall t :: 0 <= t < |s| ==> s[t].page == p && s[t].idx == t + 1)
      && (forall t :: 0 <= t < |s| - 1 ==> !s[t].kind.Failed?)
      && r.end == EndOf(s[|s| - 1].kind)
      && (r.lastIdx < cfg.maxImagesPerPage ==> r.end.Stopped?)
  {
  }

  /* ---------------------------------------------------------------------- */
  /* Existing files, requests and writes. */

  lemma {:induction false} NotInRequests(cfg: Config, steps: seq<Step>, u: string)
    requires forall k :: 0 <= k < |steps| && steps[k].kind != AlreadyPresent
                ==> u != ImageUrl(cfg, steps[k].page, steps[k].idx)
    ensures u !in Requests(cfg, steps)
  {
    if steps != [] {
      NotInRequests(cfg, steps[..|steps| - 1], u);
    }
  }

  lemma {:induction false} WritesAvoid(cfg: Config, steps: seq<Step>, xs: set<string>)
    requires forall k :: 0 <= k < |steps| && steps[k].kind == Downloaded
                ==> ImagePath(cfg, steps[k].page, steps[k].idx) !in xs
    ensures forall w :: w in Writes(cfg, steps) ==> w !in xs
  {
    if steps != [] {
      WritesAvoid(cfg, steps[..|steps| - 1], xs);
    }
  }

  /** An image is skipped exactly when its file existed before the run; no
      URL of a skipped image is requested, and no file that existed is
      written over. */
  lemma ExistingFilesSkipped(cfg: Config, env: Env)
    ensures var s := Expected(cfg, env).steps;
      && (forall k :: 0 <= k < |s| ==>
            (s[k].kind == AlreadyPresent <==> ImagePath(cfg, s[k].page, s[k].idx) in env.present))
      && (forall k :: 0 <= k < |s| && s[k].kind == AlreadyPresent ==>
            ImageUrl(cfg, s[k].page, s[k].idx) !in Requests(cfg, s))
      && (forall w :: w in Writes(cfg, s) ==> w !in env.present)
  {
    var s := Expected(cfg, env).steps;
    if Valid(cfg) && RootReady(cfg, env) {
      StepsUpToBounds(cfg, env, cfg.numPages);
      StepsStrictlyAscending(cfg, env);
      forall k | 0 <= k < |s| && s[k].kind == AlreadyPresent
        ensures ImageUrl(cfg, s[k].page, s[k].idx) !in Requests(cfg, s)
      {
        forall k' | 0 <= k' < |s| && s[k'].kind != AlreadyPresent
          ensures ImageUrl(cfg, s[k].page, s[k].idx) != ImageUrl(cfg, s[k'].page, s[k'].idx)
        {
          ImageUrlInjective(cfg, s[k].page, s[k].idx, s[k'].page, s[k'].idx);
        }
        NotInRequests(cfg, s, ImageUrl(cfg, s[k].page, s[k].idx));
      }
      WritesAvoid(cfg, s, env.present);
    }
  }

  /** No URL is probed twice in a run. */
  lemma NoUrlProbedTwice(cfg: Config, env: Env)
    ensures var s := Expected(cfg, env).steps;
      forall k, l :: 0 <= k < l < |s| ==> ImageUrl(cfg, s[k].page, s[k].idx) != ImageUrl(cfg, s[l].page, s[l].idx)
  {
    var s := Expected(cfg, env).steps;
    StepsStrictlyAscending(cfg, env);
    forall k, l | 0 <= k < l < |s|
      ensures ImageUrl(cfg, s[k].page, s[k].idx) != ImageUrl(cfg, s[l].page, s[l].idx)
    {
      ImageUrlInjective(cfg, s[k].page, s[k].idx, s[l].page, s[l].idx);
    }
  }

  lemma RequestsSnoc(cfg: Config, steps: seq<Step>, s: Step)
    ensures Requests(cfg, steps + [s])
         == Requests(cfg, steps) + (if s.kind != AlreadyPresent then [ImageUrl(cfg, s.page, s.idx)] else [])
  {
    assert (steps + [s])[..|steps|] == steps;
  }

  lemma WritesSnoc(cfg: Config, steps: seq<Step>, s: Step)
    ensures Writes(cfg, steps + [s])
         == Writes(cfg, steps) + (if s.kind == Downloaded then [ImagePath(cfg, s.page, s.idx)] else [])
  {
    assert (steps + [s])[..|steps|] == steps;
  }

  lemma SuccessesSnoc(steps: seq<Step>, s: Step)
    ensures Successes(steps + [s]) == Successes(steps) + (if s.kind.Failed? then 0 else 1)
  {
    assert (steps + [s])[..|steps|] == steps;
  }

  /** Within a page, an index's URL is requested exactly when its file did
      not exist. */
  lemma {:induction false} ProbesRequests(cfg: Config, env: Env, p: nat, m: nat)
    ensures forall i :: 1 <= i <= m ==>
      (ImageUrl(cfg, p, i) in Requests(cfg, Probes(cfg, env, p, m)) <==> ImagePath(cfg, p, i) !in env.present)
  {
    if m > 0 {
      var a := Probes(cfg, env, p, m - 1);
      ProbesRequests(cfg, env, p, m - 1);
      RequestsSnoc(cfg, a, Step(p, m, Kind(cfg, env, p, m)));
      assert Probes(cfg, env, p, m) == a + [Step(p, m, Kind(cfg, env, p, m))];
      forall i | 1 <= i < m ensures ImageUrl(cfg, p, i) != ImageUrl(cfg, p, m) {
        ImageUrlInjective(cfg, p, i, p, m);
      }
      // The newest request is not among the earlier ones.
      forall t | 0 <= t < |a| && a[t].kind != AlreadyPresent
        ensures ImageUrl(cfg, p, m) != ImageUrl(cfg, a[t].page, a[t].idx)
      {
        ImageUrlInjective(cfg, p, m, p, t + 1);
      }
      NotInRequests(cfg, a, ImageUrl(cfg, p, m));
      var earlier := Requests(cfg, a);
      var newest := if Kind(cfg, env, p, m) != AlreadyPresent then [ImageUrl(cfg, p, m)] else [];
      assert Requests(cfg, Probes(cfg, env, p, m)) == earlier + newest;
      forall i | 1 <= i <= m
        ensures ImageUrl(cfg, p, i) in earlier + newest <==> ImagePath(cfg, p, i) !in env.present
      {
        if i < m {
          assert ImageUrl(cfg, p, i) !in newest;
        } else {
          assert ImageUrl(cfg, p, m) !in earlier;
          assert ImageUrl(cfg, p, m) in newest <==> Kind(cfg, env, p, m) != AlreadyPresent;
        }
      }
    }
  }

  /** Within a page, an index's file is written exactly when the server
      answered 200 to a request for it. */
  lemma {:induction false} ProbesWrites(cfg: Config, env: Env, p: nat, m: nat)
    ensures forall i :: 1 <= i <= m ==>
      (ImagePath(cfg, p, i) in Writes(cfg, Probes(cfg, env, p, m)) <==> Kind(cfg, env, p, i) == Downloaded)
  {
    if m > 0 {
      var a := Probes(cfg, env, p, m - 1);
      ProbesWrites(cfg, env, p, m - 1);
      WritesSnoc(cfg, a, Step(p, m, Kind(cfg, env, p, m)));
      assert Probes(cfg, env, p, m) == a + [Step(p, m, Kind(cfg, env, p, m))];
      forall i | 1 <= i < m ensures ImagePath(cfg, p, i) != ImagePath(cfg, p, m) {
        ImagePathInjective(cfg, p, i, p, m);
      }
      forall t | 0 <= t < |a| && a[t].kind == Downloaded
        ensures ImagePath(cfg, p, m) != ImagePath(cfg, a[t].page, a[t].idx)
      {
        ImagePathInjective(cfg, p, m, p, t + 1);
      }
      NotInWrites(cfg, a, ImagePath(cfg, p, m));
      var earlier := Writes(cfg, a);
      var newest := if Kind(cfg, env, p, m) == Downloaded then [ImagePath(cfg, p, m)] else [];
      assert Writes(cfg, Probes(cfg, env, p, m)) == earlier + newest;
      forall i | 1 <= i <= m
        ensures ImagePath(cfg, p, i) in earlier + newest <==> Kind(cfg, env, p, i) == Downloaded
      {
        if i < m {
          assert ImagePath(cfg, p, i) !in newest;
        } else {
          assert ImagePath(cfg, p, m) !in earlier;
        }
      }
    }
  }

  /* ---------------------------------------------------------------------- */
  /* Where the inner loop stops. */

  /** If every index before j succeeded or was already there and index j
      fails, the page probes exactly 1..j: it requests the earlier URLs it
      requested plus j's, writes only the earlier 200s, and reports that it
      stopped at j with j - 1 counted. */
  lemma StopAtFirstFailure(cfg: Config, env: Env, p: nat, j: nat)
    requires DirReady(cfg, env, p)
    requires 1 <= j <= cfg.maxImagesPerPage
    requires forall i :: 1 <= i < j ==> !Kind(cfg, env, p, i).Failed?
    requires Kind(cfg, env, p, j).Failed?
    ensures PageSteps(cfg, env, p) == Probes(cfg, env, p, j - 1) + [Step(p, j, Kind(cfg, env, p, j))]
    ensures Requests(cfg, PageSteps(cfg, env, p)) == Requests(cfg, Probes(cfg, env, p, j - 1)) + [ImageUrl(cfg, p, j)]
    ensures Writes(cfg, PageSteps(cfg, env, p)) == Writes(cfg, Probes(cfg, env, p, j - 1))
    ensures ReportOf(cfg, env, p)
         == Probed(p, j - 1, j, Stopped(Kind(cfg, env, p, j).failure), j > 1 && j == cfg.maxImagesPerPage)
  {
    LastIndexIs(cfg, env, p, j);
    RequestsSnoc(cfg, Probes(cfg, env, p, j - 1), Step(p, j, Kind(cfg, env, p, j)));
    WritesSnoc(cfg, Probes(cfg, env, p, j - 1), Step(p, j, Kind(cfg, env, p, j)));
  }

  /** The images 1..m of a page that all come back with status 200. */
  predicate AllDownloaded(cfg: Config, env: Env, p: nat, m: nat) {
    forall i :: 1 <= i <= m ==>
      ImagePath(cfg, p, i) !in env.present && env.server(ImageUrl(cfg, p, i)) == Status(StatusOk)
  }

  /** The URLs of images 1..n of page p, in order. */
  function ImageUrls(cfg: Config, p: nat, n: nat): (r: seq<string>)
    ensures |r| == n
  {
    if n == 0 then [] else ImageUrls(cfg, p, n - 1) + [ImageUrl(cfg, p, n)]
  }

  /** The local paths of images 1..n of page p, in order. */
  function ImagePaths(cfg: Config, p: nat, n: nat): (r: seq<string>)
    ensures |r| == n
  {
    if n == 0 then [] else ImagePaths(cfg, p, n - 1) + [ImagePath(cfg, p, n)]
  }

  /** Entry t of these lists names image t + 1. */
  lemma {:induction false} ImageListsIndex(cfg: Config, p: nat, n: nat)
    ensures forall t :: 0 <= t < n ==> ImageUrls(cfg, p, n)[t] == ImageUrl(cfg, p, t + 1)
    ensures forall t :: 0 <= t < n ==> ImagePaths(cfg, p, n)[t] == ImagePath(cfg, p, t + 1)
  {
    if n > 0 {
      ImageListsIndex(cfg, p, n - 1);
      var us, ps := ImageUrls(cfg, p, n - 1), ImagePaths(cfg, p, n - 1);
      assert forall t :: 0 <= t < n - 1 ==> (us + [ImageUrl(cfg, p, n)])[t] == us[t];
      assert forall t :: 0 <= t < n - 1 ==> (ps + [ImagePath(cfg, p, n)])[t] == ps[t];
    }
  }

  lemma {:induction false} DownloadedWrites(cfg: Config, env: Env, p: nat, m: nat)
    requires AllDownloaded(cfg, env, p, m)
    ensures Writes(cfg, Probes(cfg, env, p, m)) == ImagePaths(cfg, p, m)
  {
    if m > 0 {
      var a := Probes(cfg, env, p, m - 1);
      assert Kind(cfg, env, p, m) == Downloaded;
      assert Probes(cfg, env, p, m) == a + [Step(p, m, Downloaded)];
      DownloadedWrites(cfg, env, p, m - 1);
      WritesSnoc(cfg, a, Step(p, m, Downloaded));
    }
  }

  lemma {:induction false} DownloadedRequests(cfg: Config, env: Env, p: nat, m: nat)
    requires AllDownloaded(cfg, env, p, m)
    ensures Requests(cfg, Probes(cfg, env, p, m)) == ImageUrls(cfg, p, m)
  {
    if m > 0 {
      var a := Probes(cfg, env, p, m - 1);
      assert Kind(cfg, env, p, m) == Downloaded;
      assert Probes(cfg, env, p, m) == a + [Step(p, m, Downloaded)];
      DownloadedRequests(cfg, env, p, m - 1);
      RequestsSnoc(cfg, a, Step(p, m, Downloaded));
    }
  }

  /** A page whose first image is missing downloads nothing and issues
      exactly one request. */
  lemma NotFoundAtFirstIndex(cfg: Config, env: Env, p: nat)
    requires cfg.maxImagesPerPage >= 1 && DirReady(cfg, env, p)
    requires ImagePath(cfg, p, 1) !in env.present
    requires env.server(ImageUrl(cfg, p, 1)) == Status(StatusNotFound)
    ensures PageSteps(cfg, env, p) == [Step(p, 1, Failed(NotFound))]
    ensures Requests(cfg, PageSteps(cfg, env, p)) == [ImageUrl(cfg, p, 1)]
    ensures Writes(cfg, PageSteps(cfg, env, p)) == []
    ensures ReportOf(cfg, env, p) == Probed(p, 0, 1, Stopped(NotFound), false)
  {
    StopAtFirstFailure(cfg, env, p, 1);
  }

  /** Images 1..k downloaded and k + 1 missing: exactly the files of images
      1..k are written, and exactly the URLs of images 1..k + 1 requested. */
  lemma DownloadsThenNotFound(cfg: Config, env: Env, p: nat, k: nat)
    requires k + 1 <= cfg.maxImagesPerPage && DirReady(cfg, env, p)
    requires AllDownloaded(cfg, env, p, k)
    requires ImagePath(cfg, p, k + 1) !in env.present
    requires env.server(ImageUrl(cfg, p, k + 1)) == Status(StatusNotFound)
    ensures Writes(cfg, PageSteps(cfg, env, p)) == ImagePaths(cfg, p, k)
    ensures Requests(cfg, PageSteps(cfg, env, p)) == ImageUrls(cfg, p, k + 1)
    ensures ReportOf(cfg, env, p) == Probed(p, k, k + 1, Stopped(NotFound), k > 0 && k + 1 == cfg.maxImagesPerPage)
  {
    DownloadedWrites(cfg, env, p, k);
    DownloadedRequests(cfg, env, p, k);
    assert forall i :: 1 <= i < k + 1 ==> Kind(cfg, env, p, i) == Downloaded;
    assert Kind(cfg, env, p, k + 1) == Failed(NotFound);
    StopAtFirstFailure(cfg, env, p, k + 1);
  }

  /** Every index up to the cap downloaded: the files of all of them are
      written, all their URLs requested, and the cap-reached report fires. */
  lemma AllDownloadedReachesCap(cfg: Config, env: Env, p: nat)
    requires cfg.maxImagesPerPage >= 1 && DirReady(cfg, env, p)
    requires AllDownloaded(cfg, env, p, cfg.maxImagesPerPage)
    ensures Writes(cfg, PageSteps(cfg, env, p)) == ImagePaths(cfg, p, cfg.maxImagesPerPage)
    ensures Requests(cfg, PageSteps(cfg, env, p)) == ImageUrls(cfg, p, cfg.maxImagesPerPage)
    ensures ReportOf(cfg, env, p)
         == Probed(p, cfg.maxImagesPerPage, cfg.maxImagesPerPage, Exhausted, true)
  {
    LastIndexIs(cfg, env, p, cfg.maxImagesPerPage);
    DownloadedWrites(cfg, env, p, cfg.maxImagesPerPage);
    DownloadedRequests(cfg, env, p, cfg.maxImagesPerPage);
  }

  /* ---------------------------------------------------------------------- */
  /* The page counter and the cap-reached report. */

  lemma {:induction false} SuccessesOfProbes(cfg: Config, env: Env, p: nat, m: nat)
    requires forall i :: 1 <= i <= m ==> !Kind(cfg, env, p, i).Failed?
    ensures Successes(Probes(cfg, env, p, m)) == m
  {
    if m > 0 {
      SuccessesOfProbes(cfg, env, p, m - 1);
      SuccessesSnoc(Probes(cfg, env, p, m - 1), Step(p, m, Kind(cfg, env, p, m)));
    }
  }

  /** The counter is the number of probes of the page that found the file
      already there or downloaded it; it never exceeds the cap. */
  lemma CounterCountsSuccesses(cfg: Config, env: Env, p: nat)
    requires cfg.maxImagesPerPage >= 1 && DirReady(cfg, env, p)
    ensures var r := ReportOf(cfg, env, p);
      && r.Probed?
      && r.count == Successes(PageSteps(cfg, env, p))
      && r.count <= r.lastIdx <= cfg.maxImagesPerPage
  {
    var last := LastIndex(cfg, env, p, 1);
    if Kind(cfg, env, p, last).Failed? {
      SuccessesOfProbes(cfg, env, p, last - 1);
      SuccessesSnoc(Probes(cfg, env, p, last - 1), Step(p, last, Kind(cfg, env, p, last)));
    } else {
      SuccessesOfProbes(cfg, env, p, last);
    }
  }

  /** The cap-reached report fires exactly when the page probed every index
      up to the cap and counted at least one image; in particular whenever
      the loop runs out without stopping. */
  lemma CapReachedMeaning(cfg: Config, env: Env, p: nat)
    requires cfg.maxImagesPerPage >= 1 && DirReady(cfg, env, p)
    ensures var r := ReportOf(cfg, env, p);
      && (r.capReached <==>
            |PageSteps(cfg, env, p)| == cfg.maxImagesPerPage && Successes(PageSteps(cfg, env, p)) > 0)
      && (r.end == Exhausted ==> r.capReached)
  {
    CounterCountsSuccesses(cfg, env, p);
  }

  /** The report also fires when the last index allowed is the one that
      fails, as long as an earlier index counted: the test is on the loop
      index, not on whether the loop ran out. */
  lemma CapReportedAfterFailureAtCap(cfg: Config, env: Env, p: nat)
    requires cfg.maxImagesPerPage >= 2 && DirReady(cfg, env, p)
    requires forall i :: 1 <= i < cfg.maxImagesPerPage ==> !Kind(cfg, env, p, i).Failed?
    requires Kind(cfg, env, p, cfg.maxImagesPerPage).Failed?
    ensures ReportOf(cfg, env, p).capReached && ReportOf(cfg, env, p).end.Stopped?
  {
    LastIndexIs(cfg, env, p, cfg.maxImagesPerPage);
  }

  /* ---------------------------------------------------------------------- */
  /* A worked case. */

  function WorkedCaseServer(url: string): Reply {
    if url == "http://x/a/p_1/1.jpg" || url == "http://x/a/p_1/2.jpg" then Status(StatusOk)
    else Status(StatusNotFound)
  }

  function WorkedCaseConfig(): Config {
    Config("http://x/a", "p", 1, ".jpg", 5, "out")
  }

  /** The names the worked case derives. */
  lemma WorkedCaseNames()
    ensures ImageUrl(WorkedCaseConfig(), 1, 1) == "http://x/a/p_1/1.jpg"
    ensures ImageUrl(WorkedCaseConfig(), 1, 2) == "http://x/a/p_1/2.jpg"
    ensures ImageUrl(WorkedCaseConfig(), 1, 3) == "http://x/a/p_1/3.jpg"
    ensures ImagePath(WorkedCaseConfig(), 1, 1) == "out/p_1/1.jpg"
    ensures ImagePath(WorkedCaseConfig(), 1, 2) == "out/p_1/2.jpg"
    ensures PageDir(WorkedCaseConfig(), 1) == "out/p_1"
  {
    assert Decimal(1) == "1" && Decimal(2) == "2" && Decimal(3) == "3";
    assert RStrip("http://x/a", '/') == "http://x/a";
  }

  function WorkedCaseEnv(): Env {
    Env({}, {}, WorkedCaseServer)
  }

  /** What the worked case's probes find. */
  lemma WorkedCaseKinds()
    ensures Kind(WorkedCaseConfig(), WorkedCaseEnv(), 1, 1) == Downloaded
    ensures Kind(WorkedCaseConfig(), WorkedCaseEnv(), 1, 2) == Downloaded
    ensures Kind(WorkedCaseConfig(), WorkedCaseEnv(), 1, 3) == Failed(NotFound)
  {
    WorkedCaseNames();
  }

  /** The probes of the worked case's page. */
  function WorkedCaseSteps(): seq<Step> {
    [Step(1, 1, Downloaded), Step(1, 2, Downloaded), Step(1, 3, Failed(NotFound))]
  }

  /** The worked case's single page. */
  lemma WorkedCasePage()
    ensures PageSteps(WorkedCaseConfig(), WorkedCaseEnv(), 1) == WorkedCaseSteps()
    ensures ReportOf(WorkedCaseConfig(), WorkedCaseEnv(), 1) == Probed(1, 2, 3, Stopped(NotFound), false)
  {
    var cfg, env := WorkedCaseConfig(), WorkedCaseEnv();
    WorkedCaseNames();
    WorkedCaseKinds();
    StopAtFirstFailure(cfg, env, 1, 3);
    assert Probes(cfg, env, 1, 2) == [Step(1, 1, Downloaded), Step(1, 2, Downloaded)];
  }

  /** The worked case's requests and writes, by page and index. */
  lemma WorkedCaseTrafficByIndex()
    ensures var cfg := WorkedCaseConfig();
      && Requests(cfg, WorkedCaseSteps()) == [ImageUrl(cfg, 1, 1), ImageUrl(cfg, 1, 2), ImageUrl(cfg, 1, 3)]
      && Writes(cfg, WorkedCaseSteps()) == [ImagePath(cfg, 1, 1), ImagePath(cfg, 1, 2)]
  {
    var cfg := WorkedCaseConfig();
    var s1 := [Step(1, 1, Downloaded)];
    var s2 := s1 + [Step(1, 2, Downloaded)];
    assert WorkedCaseSteps() == s2 + [Step(1, 3, Failed(NotFound))];
    assert [] + s1 == s1;
    RequestsSnoc(cfg, [], Step(1, 1, Downloaded));
    WritesSnoc(cfg, [], Step(1, 1, Downloaded));
    RequestsSnoc(cfg, s1, Step(1, 2, Downloaded));
    WritesSnoc(cfg, s1, Step(1, 2, Downloaded));
    RequestsSnoc(cfg, s2, Step(1, 3, Failed(NotFound)));
    WritesSnoc(cfg, s2, Step(1, 3, Failed(NotFound)));
  }

  /** The requests and writes of the worked case's probes. */
  lemma WorkedCaseTraffic()
    ensures Requests(WorkedCaseConfig(), WorkedCaseSteps())
         == ["http://x/a/p_1/1.jpg", "http://x/a/p_1/2.jpg", "http://x/a/p_1/3.jpg"]
    ensures Writes(WorkedCaseConfig(), WorkedCaseSteps()) == ["out/p_1/1.jpg", "out/p_1/2.jpg"]
  {
    WorkedCaseTrafficByIndex();
    WorkedCaseNames();
  }

  /** The worked case's probes and reports over its one page. */
  lemma WorkedCaseUpToOne()
    ensures StepsUpTo(WorkedCaseConfig(), WorkedCaseEnv(), 1) == WorkedCaseSteps()
    ensures ReportsUpTo(WorkedCaseConfig(), WorkedCaseEnv(), 1) == [ReportOf(WorkedCaseConfig(), WorkedCaseEnv(), 1)]
  {
    var cfg, env := WorkedCaseConfig(), WorkedCaseEnv();
    WorkedCasePage();
    assert StepsUpTo(cfg, env, 1) == [] + WorkedCaseSteps();
    assert ReportsUpTo(cfg, env, 1) == [] + [ReportOf(cfg, env, 1)];
  }

  /** The paths the worked case adds: the output directory, the page
      directory and the two images. */
  lemma WorkedCaseAdded()
    ensures var cfg, env := WorkedCaseConfig(), WorkedCaseEnv();
      env.present + RootAdded(cfg, env) + DirsAdded(cfg, env, 1) + WrittenSet(cfg, WorkedCaseSteps())
      == {cfg.outputDirectory, PageDir(cfg, 1), ImagePath(cfg, 1, 1), ImagePath(cfg, 1, 2)}
  {
    var cfg, env := WorkedCaseConfig(), WorkedCaseEnv();
    WorkedCaseTrafficByIndex();
    assert DirsAdded(cfg, env, 1) == {PageDir(cfg, 1)};
  }

  /** The worked case's run, by page and index. */
  lemma WorkedCaseRunByIndex()
    ensures var cfg, env := WorkedCaseConfig(), WorkedCaseEnv();
      var run := Expected(cfg, env);
      && run.outcome == Completed
      && run.reports == [ReportOf(cfg, env, 1)]
      && run.steps == WorkedCaseSteps()
      && run.entries == {cfg.outputDirectory, PageDir(cfg, 1), ImagePath(cfg, 1, 1), ImagePath(cfg, 1, 2)}
  {
    WorkedCaseUpToOne();
    WorkedCaseAdded();
    assert Validate(WorkedCaseConfig()) == Accepted;
  }

  /** One page with prefix "p" under "http://x/a", cap 5: images 1 and 2
      exist on the server and 3 does not. The run writes p_1/1.jpg and
      p_1/2.jpg, issues three requests and stops at index 3. */
  lemma WorkedCaseScenario()
    ensures var run := Expected(WorkedCaseConfig(), WorkedCaseEnv());
      && run.outcome == Completed
      && run.reports == [Probed(1, 2, 3, Stopped(NotFound), false)]
      && Requests(WorkedCaseConfig(), run.steps) == ["http://x/a/p_1/1.jpg", "http://x/a/p_1/2.jpg", "http://x/a/p_1/3.jpg"]
      && Writes(WorkedCaseConfig(), run.steps) == ["out/p_1/1.jpg", "out/p_1/2.jpg"]
      && run.entries == {"out", "out/p_1", "out/p_1/1.jpg", "out/p_1/2.jpg"}
  {
    WorkedCaseRunByIndex();
    WorkedCasePage();
    WorkedCaseTraffic();
    WorkedCaseNames();
  }
}
