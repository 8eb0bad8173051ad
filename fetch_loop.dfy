/** The body of `scrape_images_from_pages`: the run over pages 1..numPages
    and, inside each page, over image indices 1..maxImagesPerPage.

    The network and the file system are inputs. The server is a function
    from URL to reply. The file system is the set of paths that exist
    before the run (`os.path.exists` is true for files and directories
    alike) and the set of paths whose creation would fail. The method
    ScrapeImagesFromPages threads the file system through the loops as the
    source does; the specification functions read only the file system as
    it was before the run. The two agree because no path the run creates is
    looked up again (the injectivity lemmas of Targets). */
module FetchLoop {
  import opened Text
  import opened Targets

  /** What `requests.get` produces: a response with a status code, or one of
      the transport exceptions the source catches (all of which end the page
      the same way). */
  datatype Reply = Status(code: int) | TransportFailure

  datatype Env = Env(
    present: set<string>,          // paths that exist before the run
    denied: set<string>,           // paths whose os.makedirs raises OSError
    server: string -> Reply)       // the reply to a GET of each URL

  const StatusOk := 200
  const StatusNotFound := 404

  /** Why the inner loop stopped early. */
  datatype Failure = NotFound | HttpError(code: int) | TransportError

  /** What happened at one probed index. */
  datatype StepKind = AlreadyPresent | Downloaded | Failed(failure: Failure)

  datatype Step = Step(page: nat, idx: nat, kind: StepKind)

  /** How a page's inner loop ended. */
  datatype PageEnd = Stopped(failure: Failure) | Exhausted

  /** What a page comes to: its directory could not be created, or it was
      probed; `count` is `images_downloaded_for_this_page`, `lastIdx` the
      final value of `image_idx`, `capReached` the condition of the
      "Reached max_images_per_page" report. */
  datatype PageReport =
    | DirFailed(page: nat)
    | Probed(page: nat, count: nat, lastIdx: nat, end: PageEnd, capReached: bool)

  datatype Outcome = Rejected(error: ConfigError) | RootFailed | Completed

  /** A whole run: how it ended, one report per page, every probe in the
      order made, and the paths that exist afterwards. */
  datatype Run = Run(outcome: Outcome, reports: seq<PageReport>, steps: seq<Step>, entries: set<string>)

  /* ---------------------------------------------------------------------- */
  /* The reference definition of a run, over the file system before the run. */

  function Classify(reply: Reply): StepKind {
    match reply
    case TransportFailure => Failed(TransportError)
    case Status(code) =>
      if code == StatusOk then Downloaded
      else if code == StatusNotFound then Failed(NotFound)
      else Failed(HttpError(code))
  }

  /** What probing index `idx` of `page` does: skip an existing file, or
      classify the server's reply to the image URL. */
  function Kind(cfg: Config, env: Env, page: nat, idx: nat): StepKind {
    if ImagePath(cfg, page, idx) in env.present then AlreadyPresent
    else Classify(env.server(ImageUrl(cfg, page, idx)))
  }

  predicate RootReady(cfg: Config, env: Env) {
    cfg.outputDirectory in env.present || cfg.outputDirectory !in env.denied
  }

  predicate DirReady(cfg: Config, env: Env, page: nat) {
    PageDir(cfg, page) in env.present || PageDir(cfg, page) !in env.denied
  }

  predicate DirCreated(cfg: Config, env: Env, page: nat) {
    PageDir(cfg, page) !in env.present && PageDir(cfg, page) !in env.denied
  }

  /** The index at which the inner loop of `page` ends, searching from
      `from`: the first index whose probe fails, or the cap. */
  function LastIndex(cfg: Config, env: Env, page: nat, from: nat): (last: nat)
    requires 1 <= from <= cfg.maxImagesPerPage
    ensures from <= last <= cfg.maxImagesPerPage
    ensures forall j :: from <= j < last ==> !Kind(cfg, env, page, j).Failed?
    ensures last < cfg.maxImagesPerPage ==> Kind(cfg, env, page, last).Failed?
    decreases cfg.maxImagesPerPage - from
  {
    if from == cfg.maxImagesPerPage || Kind(cfg, env, page, from).Failed? then from
    else LastIndex(cfg, env, page, from + 1)
  }

  /** The probes of indices 1..k of `page`, in ascending order. */
  function Probes(cfg: Config, env: Env, page: nat, k: nat): (r: seq<Step>)
    ensures |r| == k
    ensures forall t :: 0 <= t < k ==> r[t] == Step(page, t + 1, Kind(cfg, env, page, t + 1))
  {
    if k == 0 then [] else Probes(cfg, env, page, k - 1) + [Step(page, k, Kind(cfg, env, page, k))]
  }

  function PageSteps(cfg: Config, env: Env, page: nat): seq<Step>
    requires cfg.maxImagesPerPage >= 1
  {
    if DirReady(cfg, env, page) then Probes(cfg, env, page, LastIndex(cfg, env, page, 1)) else []
  }

  function EndOf(k: StepKind): PageEnd {
    if k.Failed? then Stopped(k.failure) else Exhausted
  }

  /** The report of `page`: every index before the last one succeeded or was
      already present, so the counter is the last index, less one when the
      last probe failed. */
  function ReportOf(cfg: Config, env: Env, page: nat): PageReport
    requires cfg.maxImagesPerPage >= 1
  {
    if !DirReady(cfg, env, page) then DirFailed(page)
    else
      var last := LastIndex(cfg, env, page, 1);
      var end := EndOf(Kind(cfg, env, page, last));
      var count := if end == Exhausted then last else last - 1;
      Probed(page, count, last, end, count > 0 && last == cfg.maxImagesPerPage)
  }

  function StepsUpTo(cfg: Config, env: Env, n: nat): seq<Step>
    requires cfg.maxImagesPerPage >= 1
  {
    if n == 0 then [] else StepsUpTo(cfg, env, n - 1) + PageSteps(cfg, env, n)
  }

  function ReportsUpTo(cfg: Config, env: Env, n: nat): seq<PageReport>
    requires cfg.maxImagesPerPage >= 1
  {
    if n == 0 then [] else ReportsUpTo(cfg, env, n - 1) + [ReportOf(cfg, env, n)]
  }

  function RootAdded(cfg: Config, env: Env): set<string> {
    if cfg.outputDirectory in env.present then {} else {cfg.outputDirectory}
  }

  /** The page directories that pages 1..n create. */
  function DirsAdded(cfg: Config, env: Env, n: nat): set<string> {
    if n == 0 then {}
    else DirsAdded(cfg, env, n - 1) + (if DirCreated(cfg, env, n) then {PageDir(cfg, n)} else {})
  }

  /** The image files written by `steps`, in order. */
  function Writes(cfg: Config, steps: seq<Step>): seq<string> {
    if steps == [] then []
    else
      var s := steps[|steps| - 1];
      Writes(cfg, steps[..|steps| - 1]) + (if s.kind == Downloaded then [ImagePath(cfg, s.page, s.idx)] else [])
  }

  /** The URLs requested by `steps`, in order. */
  function Requests(cfg: Config, steps: seq<Step>): seq<string> {
    if steps == [] then []
    else
      var s := steps[|steps| - 1];
      Requests(cfg, steps[..|steps| - 1]) + (if s.kind != AlreadyPresent then [ImageUrl(cfg, s.page, s.idx)] else [])
  }

  /** How many of `steps` count toward a page's counter. */
  function Successes(steps: seq<Step>): nat {
    if steps == [] then 0
    else Successes(steps[..|steps| - 1]) + (if steps[|steps| - 1].kind.Failed? then 0 else 1)
  }

  function WrittenSet(cfg: Config, steps: seq<Step>): set<string> {
    set w | w in Writes(cfg, steps)
  }

  /** The run the source performs on `cfg` against `env`. */
  function Expected(cfg: Config, env: Env): Run {
    match Validate(cfg)
    case Refused(e) => Run(Rejected(e), [], [], env.present)
    case Accepted =>
      if !RootReady(cfg, env) then Run(RootFailed, [], [], env.present)
      else
        var steps := StepsUpTo(cfg, env, cfg.numPages);
        Run(Completed, ReportsUpTo(cfg, env, cfg.numPages), steps,
            env.present + RootAdded(cfg, env) + DirsAdded(cfg, env, cfg.numPages) + WrittenSet(cfg, steps))
  }

  /* ---------------------------------------------------------------------- */
  /* Facts the method's proof uses. */

  /** The last index is determined by the probes: it is the first failing
      index, or the cap when none fails. */
  lemma LastIndexIs(cfg: Config, env: Env, page: nat, i: nat)
    requires 1 <= i <= cfg.maxImagesPerPage
    requires forall j :: 1 <= j < i ==> !Kind(cfg, env, page, j).Failed?
    requires i == cfg.maxImagesPerPage || Kind(cfg, env, page, i).Failed?
    ensures LastIndex(cfg, env, page, 1) == i
  {
  }

  /** A page that first fails at `i`, or reaches the cap `i` without a
      failure, ends there: its probes are 1..i and its report follows. */
  lemma PageEndsAt(cfg: Config, env: Env, page: nat, i: nat)
    requires DirReady(cfg, env, page)
    requires 1 <= i <= cfg.maxImagesPerPage
    requires forall j :: 1 <= j < i ==> !Kind(cfg, env, page, j).Failed?
    requires i == cfg.maxImagesPerPage || Kind(cfg, env, page, i).Failed?
    ensures PageSteps(cfg, env, page) == Probes(cfg, env, page, i)
    ensures Kind(cfg, env, page, i).Failed? ==>
      ReportOf(cfg, env, page)
      == Probed(page, i - 1, i, Stopped(Kind(cfg, env, page, i).failure), i > 1 && i == cfg.maxImagesPerPage)
    ensures !Kind(cfg, env, page, i).Failed? ==>
      ReportOf(cfg, env, page) == Probed(page, i, i, Exhausted, true)
  {
    LastIndexIs(cfg, env, page, i);
  }

  lemma WrittenSnoc(cfg: Config, steps: seq<Step>, s: Step)
    ensures WrittenSet(cfg, steps + [s])
         == WrittenSet(cfg, steps) + (if s.kind == Downloaded then {ImagePath(cfg, s.page, s.idx)} else {})
  {
    assert (steps + [s])[..|steps|] == steps;
  }

  lemma {:induction false} WritesAppend(cfg: Config, a: seq<Step>, b: seq<Step>)
    ensures Writes(cfg, a + b) == Writes(cfg, a) + Writes(cfg, b)
    ensures WrittenSet(cfg, a + b) == WrittenSet(cfg, a) + WrittenSet(cfg, b)
    decreases |b|
  {
    if b == [] {
      assert a + b == a;
    } else {
      var b' := b[..|b| - 1];
      assert (a + b)[..|a + b| - 1] == a + b';
      WritesAppend(cfg, a, b');
    }
  }

  lemma {:induction false} NotInWrites(cfg: Config, steps: seq<Step>, x: string)
    requires forall k :: 0 <= k < |steps| && steps[k].kind == Downloaded
                ==> x != ImagePath(cfg, steps[k].page, steps[k].idx)
    ensures x !in Writes(cfg, steps)
  {
    if steps != [] {
      NotInWrites(cfg, steps[..|steps| - 1], x);
    }
  }

  lemma {:induction false} NotInDirsAdded(cfg: Config, env: Env, n: nat, x: string)
    requires forall q :: 1 <= q <= n ==> x != PageDir(cfg, q)
    ensures x !in DirsAdded(cfg, env, n)
  {
    if n > 0 {
      NotInDirsAdded(cfg, env, n - 1, x);
    }
  }

  /** Every probe of pages 1..n lies in a page in 1..n, at an index within
      the cap, and records what Kind says of it. */
  lemma {:induction false} StepsUpToBounds(cfg: Config, env: Env, n: nat)
    requires cfg.maxImagesPerPage >= 1
    ensures forall k :: 0 <= k < |StepsUpTo(cfg, env, n)| ==>
      var s: Step := StepsUpTo(cfg, env, n)[k];
      1 <= s.page <= n && 1 <= s.idx <= cfg.maxImagesPerPage && s.kind == Kind(cfg, env, s.page, s.idx)
  {
    if n > 0 {
      StepsUpToBounds(cfg, env, n - 1);
      var a: seq<Step> := StepsUpTo(cfg, env, n - 1);
      var b: seq<Step> := PageSteps(cfg, env, n);
      assert StepsUpTo(cfg, env, n) == a + b;
      forall k | 0 <= k < |a + b|
        ensures var s: Step := (a + b)[k];
          1 <= s.page <= n && 1 <= s.idx <= cfg.maxImagesPerPage && s.kind == Kind(cfg, env, s.page, s.idx)
      {
        if k >= |a| {
          assert (a + b)[k] == b[k - |a|];
        }
      }
    }
  }

  /** A page's directory is not among the paths the run created before it. */
  lemma FreshPageDir(cfg: Config, env: Env, page: nat)
    requires cfg.maxImagesPerPage >= 1 && page >= 1
    ensures PageDir(cfg, page)
      !in RootAdded(cfg, env) + DirsAdded(cfg, env, page - 1) + WrittenSet(cfg, StepsUpTo(cfg, env, page - 1))
  {
    PageDirNotRoot(cfg, page);
    PageDirNotEarlierDir(cfg, env, page);
    PageDirNotWritten(cfg, env, page);
  }

  lemma PageDirNotRoot(cfg: Config, page: nat)
    ensures PageDir(cfg, page) != cfg.outputDirectory
  {
    assert |PageDir(cfg, page)| > |cfg.outputDirectory|;
  }

  lemma PageDirNotEarlierDir(cfg: Config, env: Env, page: nat)
    requires page >= 1
    ensures PageDir(cfg, page) !in DirsAdded(cfg, env, page - 1)
  {
    forall q | 1 <= q <= page - 1 ensures PageDir(cfg, page) != PageDir(cfg, q) {
      PageDirInjective(cfg, page, q);
    }
    NotInDirsAdded(cfg, env, page - 1, PageDir(cfg, page));
  }

  lemma PageDirNotWritten(cfg: Config, env: Env, page: nat)
    requires cfg.maxImagesPerPage >= 1 && page >= 1
    ensures PageDir(cfg, page) !in WrittenSet(cfg, StepsUpTo(cfg, env, page - 1))
  {
    var steps := StepsUpTo(cfg, env, page - 1);
    forall k | 0 <= k < |steps| && steps[k].kind == Downloaded
      ensures PageDir(cfg, page) != ImagePath(cfg, steps[k].page, steps[k].idx)
    {
      ImagePathIsNotPageDir(cfg, steps[k].page, steps[k].idx, page);
    }
    NotInWrites(cfg, steps, PageDir(cfg, page));
  }

  /** No image path of a page is among the paths the run created before
      the page. */
  lemma FreshPageImages(cfg: Config, env: Env, page: nat, idx: nat)
    requires cfg.maxImagesPerPage >= 1 && page >= 1
    ensures ImagePath(cfg, page, idx)
      !in RootAdded(cfg, env) + DirsAdded(cfg, env, page) + WrittenSet(cfg, StepsUpTo(cfg, env, page - 1))
  {
    var x := ImagePath(cfg, page, idx);
    assert |x| > |cfg.outputDirectory|;
    forall q | 1 <= q <= page ensures x != PageDir(cfg, q) {
      ImagePathIsNotPageDir(cfg, page, idx, q);
    }
    NotInDirsAdded(cfg, env, page, x);
    var steps := StepsUpTo(cfg, env, page - 1);
    StepsUpToBounds(cfg, env, page - 1);
    forall k | 0 <= k < |steps| && steps[k].kind == Downloaded
      ensures x != ImagePath(cfg, steps[k].page, steps[k].idx)
    {
      ImagePathInjective(cfg, page, idx, steps[k].page, steps[k].idx);
    }
    NotInWrites(cfg, steps, x);
  }

  /** Before page `page` makes its directory, the directory is in the
      running file system exactly when it existed before the run. */
  lemma PageDirInEntries(cfg: Config, env: Env, page: nat, entries: set<string>)
    requires cfg.maxImagesPerPage >= 1 && page >= 1
    requires entries == env.present + RootAdded(cfg, env) + DirsAdded(cfg, env, page - 1)
                        + WrittenSet(cfg, StepsUpTo(cfg, env, page - 1))
    ensures PageDir(cfg, page) in entries <==> PageDir(cfg, page) in env.present
    ensures !DirCreated(cfg, env, page) ==> DirsAdded(cfg, env, page) == DirsAdded(cfg, env, page - 1)
    ensures DirCreated(cfg, env, page) ==>
      entries + {PageDir(cfg, page)} == env.present + RootAdded(cfg, env) + DirsAdded(cfg, env, page)
                                        + WrittenSet(cfg, StepsUpTo(cfg, env, page - 1))
  {
    FreshPageDir(cfg, env, page);
  }

  /** Once page `page` has its directory, its image paths are in the
      running file system exactly when they existed before the run. */
  lemma ImagesInEntries(cfg: Config, env: Env, page: nat, entries: set<string>)
    requires cfg.maxImagesPerPage >= 1 && page >= 1
    requires entries == env.present + RootAdded(cfg, env) + DirsAdded(cfg, env, page)
                        + WrittenSet(cfg, StepsUpTo(cfg, env, page - 1))
    ensures forall idx: nat :: ImagePath(cfg, page, idx) in entries <==> ImagePath(cfg, page, idx) in env.present
  {
    forall idx: nat
      ensures ImagePath(cfg, page, idx) in entries <==> ImagePath(cfg, page, idx) in env.present
    {
      FreshPageImages(cfg, env, page, idx);
    }
  }

  /** After page `page`'s probes, the running file system has gained the
      files they wrote. */
  lemma EntriesAfterPage(cfg: Config, env: Env, page: nat, before: set<string>, pageSteps: seq<Step>,
                         after: set<string>)
    requires cfg.maxImagesPerPage >= 1 && page >= 1
    requires before == env.present + RootAdded(cfg, env) + DirsAdded(cfg, env, page)
                       + WrittenSet(cfg, StepsUpTo(cfg, env, page - 1))
    requires pageSteps == PageSteps(cfg, env, page)
    requires after == before + WrittenSet(cfg, pageSteps)
    ensures after == env.present + RootAdded(cfg, env) + DirsAdded(cfg, env, page)
                     + WrittenSet(cfg, StepsUpTo(cfg, env, page))
  {
    WritesAppend(cfg, StepsUpTo(cfg, env, page - 1), pageSteps);
  }

  /** Inside a page, the image being probed has not been written by the
      probes before it. */
  lemma FreshInPage(cfg: Config, env: Env, page: nat, idx: nat)
    requires idx >= 1
    ensures ImagePath(cfg, page, idx) !in WrittenSet(cfg, Probes(cfg, env, page, idx - 1))
  {
    var steps := Probes(cfg, env, page, idx - 1);
    forall k | 0 <= k < |steps| && steps[k].kind == Downloaded
      ensures ImagePath(cfg, page, idx) != ImagePath(cfg, steps[k].page, steps[k].idx)
    {
      ImagePathInjective(cfg, page, idx, steps[k].page, steps[k].idx);
    }
    NotInWrites(cfg, steps, ImagePath(cfg, page, idx));
  }

  /** At index `idx` of the inner loop, the image path is in the running
      file system exactly when it existed before the run. */
  lemma ProbeTarget(cfg: Config, env: Env, page: nat, idx: nat, pageSteps: seq<Step>,
                    entries0: set<string>, entries: set<string>)
    requires idx >= 1
    requires forall i: nat :: ImagePath(cfg, page, i) in entries0 <==> ImagePath(cfg, page, i) in env.present
    requires pageSteps == Probes(cfg, env, page, idx - 1)
    requires entries == entries0 + WrittenSet(cfg, pageSteps)
    ensures ImagePath(cfg, page, idx) in entries <==> ImagePath(cfg, page, idx) in env.present
  {
    FreshInPage(cfg, env, page, idx);
  }

  /** Recording the probe of `idx` with the kind the loop found extends the
      probes by one and the running file system by the file it wrote. */
  lemma ProbeRecorded(cfg: Config, env: Env, page: nat, idx: nat, pageSteps: seq<Step>,
                      entries0: set<string>, entries: set<string>, kind: StepKind)
    requires idx >= 1
    requires kind == Kind(cfg, env, page, idx)
    requires pageSteps == Probes(cfg, env, page, idx - 1)
    requires entries == entries0 + WrittenSet(cfg, pageSteps)
    ensures pageSteps + [Step(page, idx, kind)] == Probes(cfg, env, page, idx)
    ensures (if kind == Downloaded then entries + {ImagePath(cfg, page, idx)} else entries)
         == entries0 + WrittenSet(cfg, pageSteps + [Step(page, idx, kind)])
  {
    WrittenSnoc(cfg, pageSteps, Step(page, idx, kind));
  }

  /* ---------------------------------------------------------------------- */
  /* The source's loop. */

  /** `scrape_images_from_pages(...)` run against `env`. */
  method ScrapeImagesFromPages(cfg: Config, env: Env) returns (run: Run)
    ensures run == Expected(cfg, env)
  {
    var verdict := Validate(cfg);
    if verdict.Refused? {
      return Run(Rejected(verdict.error), [], [], env.present);
    }
    var entries := env.present;
    if cfg.outputDirectory !in entries {
      if cfg.outputDirectory in env.denied {
        return Run(RootFailed, [], [], env.present);
      }
      entries := entries + {cfg.outputDirectory};
    }
    var reports: seq<PageReport> := [];
    var steps: seq<Step> := [];
    for page: nat := 1 to cfg.numPages + 1
      invariant reports == ReportsUpTo(cfg, env, page - 1)
      invariant steps == StepsUpTo(cfg, env, page - 1)
      invariant entries == env.present + RootAdded(cfg, env) + DirsAdded(cfg, env, page - 1) + WrittenSet(cfg, steps)
    {
      var segment := PageSegment(cfg.pagePrefix, page);
      var pageUrl := PageBaseUrl(cfg.baseUrl, segment);
      var pageDir := Join(cfg.outputDirectory, segment);
      PageDirInEntries(cfg, env, page, entries);
      if pageDir !in entries {
        if pageDir in env.denied {
          reports := reports + [DirFailed(page)];
          assert steps + [] == steps;
          continue;
        }
        entries := entries + {pageDir};
      }
      ImagesInEntries(cfg, env, page, entries);
      ghost var before := entries;
      var pageSteps, report;
      pageSteps, entries, report := ProbePage(cfg, env, page, pageUrl, pageDir, entries);
      EntriesAfterPage(cfg, env, page, before, pageSteps, entries);
      steps := steps + pageSteps;
      reports := reports + [report];
    }
    run := Run(Completed, reports, steps, entries);
  }

  /** The inner loop of one page whose directory exists: probe indices
      1..maxImagesPerPage in order, skip files already there, write the ones
      the server returns with status 200, and stop at the first other reply. */
  method ProbePage(cfg: Config, env: Env, page: nat, pageUrl: string, pageDir: string, entries0: set<string>)
    returns (pageSteps: seq<Step>, entries: set<string>, report: PageReport)
    requires cfg.maxImagesPerPage >= 1 && page >= 1 && DirReady(cfg, env, page)
    requires pageUrl == PageBaseUrl(cfg.baseUrl, PageSegment(cfg.pagePrefix, page))
    requires pageDir == PageDir(cfg, page)
    requires forall idx: nat :: ImagePath(cfg, page, idx) in entries0 <==> ImagePath(cfg, page, idx) in env.present
    ensures pageSteps == PageSteps(cfg, env, page)
    ensures report == ReportOf(cfg, env, page)
    ensures entries == entries0 + WrittenSet(cfg, pageSteps)
  {
    entries := entries0;
    pageSteps := [];
    var count: nat := 0;
    var last: nat := 0;
    var end := Exhausted;
    for idx: nat := 1 to cfg.maxImagesPerPage + 1
      invariant pageSteps == Probes(cfg, env, page, idx - 1)
      invariant forall j :: 1 <= j < idx ==> !Kind(cfg, env, page, j).Failed?
      invariant count == idx - 1 && last == idx - 1 && end == Exhausted
      invariant entries == entries0 + WrittenSet(cfg, pageSteps)
    {
      last := idx;
      ProbeTarget(cfg, env, page, idx, pageSteps, entries0, entries);
      var kind, entries' := ProbeIndex(cfg, env, page, idx, pageUrl, pageDir, entries);
      ProbeRecorded(cfg, env, page, idx, pageSteps, entries0, entries, kind);
      entries := entries';
      pageSteps := pageSteps + [Step(page, idx, kind)];
      if kind.Failed? {
        end := Stopped(kind.failure);
        PageEndsAt(cfg, env, page, idx);
        break;
      }
      count := count + 1;
    }
    if end == Exhausted {
      PageEndsAt(cfg, env, page, last);
    }
    report := Probed(page, count, last, end, count > 0 && last == cfg.maxImagesPerPage);
  }

  /** One pass of the inner loop's body: skip an image file that exists,
      otherwise GET its URL and write the file on status 200; any other
      reply is the failure that ends the page. */
  method ProbeIndex(cfg: Config, env: Env, page: nat, idx: nat, pageUrl: string, pageDir: string,
                    entries: set<string>)
    returns (kind: StepKind, entries': set<string>)
    requires pageUrl == PageBaseUrl(cfg.baseUrl, PageSegment(cfg.pagePrefix, page))
    requires pageDir == PageDir(cfg, page)
    requires ImagePath(cfg, page, idx) in entries <==> ImagePath(cfg, page, idx) in env.present
    ensures kind == Kind(cfg, env, page, idx)
    ensures entries' == if kind == Downloaded then entries + {ImagePath(cfg, page, idx)} else entries
  {
    var fileName := ImageFileName(idx, cfg.imageExtension);
    var url := pageUrl + "/" + fileName;
    var path := Join(pageDir, fileName);
    entries' := entries;
    if path in entries {
      return AlreadyPresent, entries';
    }
    match env.server(url) {
      case TransportFailure =>
        kind := Failed(TransportError);
      case Status(code) =>
        if code == StatusOk {
          entries' := entries + {path};
          kind := Downloaded;
        } else if code == StatusNotFound {
          kind := Failed(NotFound);
        } else {
          kind := Failed(HttpError(code));
        }
    }
  }
}
