# Nested image scraper, modelled in Dafny

This project models `scrape_images_from_pages` from `scrape_nested_images.py`.
The function goes through the parent pages `1..num_parent_pages` of a site. Each
page has a directory of images named `1.ext`, `2.ext`, …. For each page the
function creates a local directory. It then probes each image index from 1 up to
`max_images_per_page`:

- a file that already exists locally is skipped and counted;
- a file the server returns with status 200 is written and counted;
- any other reply stops the page: 404, another status, or a transport exception.

When a page's counter is positive and its last index is the cap, the model marks
the "max images reached" report.

The model has four modules:

- `Text` covers the string operations the function takes from Python: `str(n)`
  for a non-negative integer (`Decimal`), `startswith` and `rstrip('/')`.
- `Targets` holds the configuration, its validation, and the names derived
  from it. The configuration keeps the source's defaults for its last three
  arguments: `.jpg`, 200 and `scraped_pictures_by_page`. The derived names are
  the page segment `prefix_N`, the page base URL, the image URL, the page
  directory and the image path. It proves the shape of the image URL and that
  distinct (page, index) pairs get distinct URLs and distinct paths.
- `FetchLoop` treats the world outside as values:
  - the web server is a function from URL to reply;
  - the file system is the set of paths that exist before the run, plus the set
    of paths whose `os.makedirs` raises `OSError`.

  `Expected` is the reference definition of a run: its outcome, one report per
  page, every probe in order, and the paths that exist afterwards.
  `ScrapeImagesFromPages` is the imperative model of the function body. It has
  the source's two nested loops and carries the file system as a growing set.
  It is proved to produce exactly `Expected`.
- `Properties` proves what the function promises, about `Expected`.

## Model

| member | source | states |
|---|---|---|
| Targets.Validate | scrape_nested_images.py:32-43 | accepts exactly the valid configurations; a refused one names a violated constraint, and no constraint checked earlier is violated |
| Targets.ValidMeansNoViolation | scrape_nested_images.py:32-43 | a configuration is valid exactly when it violates none of the four constraints |
| Text.DecimalDigits | scrape_nested_images.py:58 | `str(n)` of a non-negative integer consists of digits only |
| Text.DigitsValueOfDecimal | scrape_nested_images.py:58 | the digits of `str(n)` denote `n`, so `str` can be inverted |
| Text.DecimalInjective | scrape_nested_images.py:78 | distinct indices give distinct numerals |
| Text.RStripRemovesOnlyTrailing | scrape_nested_images.py:61 | `rstrip('/')` leaves a prefix that does not end in '/', and everything it removed is '/' |
| Text.RStripIgnoresTrailing | scrape_nested_images.py:61 | appending more '/' to a string does not change what `rstrip('/')` leaves |
| Targets.ImageUrlShape | scrape_nested_images.py:58-79 | the image URL is the stripped base, '/', `prefix_page`, '/', the index and the extension; the stripped base is non-empty and does not end in '/', so exactly one '/' separates the base from the segment, however many slashes the base ends with |
| Targets.TrailingSlashesIgnored | scrape_nested_images.py:61 | trailing slashes on the base URL never change an image URL |
| Targets.ImagePathInjective | scrape_nested_images.py:78-80 | two image paths are equal only for the same page and index |
| Targets.ImageUrlInjective | scrape_nested_images.py:58-79 | two image URLs are equal only for the same page and index |
| Targets.PageDirInjective | scrape_nested_images.py:58-63 | distinct pages have distinct directories |
| Targets.ImagePathIsNotPageDir | scrape_nested_images.py:63-80 | no image path is any page's directory |
| FetchLoop.LastIndex | scrape_nested_images.py:77-123 | the inner loop ends at the first index whose probe fails, or at the cap when none fails |
| FetchLoop.Probes | scrape_nested_images.py:77-97 | probes 1..k of a page in ascending order, each recording what happened at that index |
| FetchLoop.LastIndexIs | scrape_nested_images.py:77-123 | any index with no failure before it that fails or is the cap is the last index |
| FetchLoop.PageEndsAt | scrape_nested_images.py:76-123 | a page whose first failure is at i, or which reaches the cap i with no failure, probes exactly 1..i; its report counts i-1 and gives i's failure, or counts i and says the loop ran out |
| FetchLoop.StepsUpToBounds | scrape_nested_images.py:57-80 | every probe of pages 1..n lies on one of those pages, at an index within the cap, and records that page and index's outcome |
| FetchLoop.PageDirInEntries | scrape_nested_images.py:68-74 | before a page makes its directory, the directory exists exactly when it existed before the run |
| FetchLoop.ImagesInEntries | scrape_nested_images.py:83 | once a page has its directory, its image files exist exactly when they existed before the run |
| FetchLoop.EntriesAfterPage | scrape_nested_images.py:93-95 | after a page's probes, the file system has gained the files they wrote |
| FetchLoop.ScrapeImagesFromPages | scrape_nested_images.py:5-136 | the whole function: its outcome, the page reports, the probes and the final file system equal the reference run |
| FetchLoop.ProbePage | scrape_nested_images.py:76-134 | one page's inner loop: its probes, its report (counter, last index, why it ended, cap report) and the files it writes equal the reference ones |
| FetchLoop.ProbeIndex | scrape_nested_images.py:78-123 | one probe: an existing file is skipped; 200 writes the file; 404, another status or a transport failure is the failure, and nothing is written |
| Properties.RejectedRunDoesNothing | scrape_nested_images.py:32-43 | an invalid configuration is refused with the first violated constraint; no page is probed and the file system is unchanged |
| Properties.RootFailureIsFatal | scrape_nested_images.py:46-52 | a missing output directory that cannot be created ends the run; no page is processed and nothing changes |
| Properties.EveryPageReported | scrape_nested_images.py:57-74 | each page 1..N gets its report in order; a page is skipped exactly when its directory is missing and cannot be created |
| Properties.PageDirFailureIsLocal | scrape_nested_images.py:68-74 | making one page's directory uncreatable changes only that page's report; every other page's report stays the same |
| Properties.OwnPageDirDenied | scrape_nested_images.py:68-74 | with its directory made uncreatable, a page is skipped unless the directory already existed, and then its report is unchanged |
| Properties.StepsStrictlyAscending | scrape_nested_images.py:57-77 | the probes of a run are strictly ascending in (page, index) |
| Properties.PageProbesExact | scrape_nested_images.py:77-123 | a page probes indices 1..last in order; only the last probe can fail; the page ends for the reason of its last probe; stopping before the cap means a failure |
| Properties.ExistingFilesSkipped | scrape_nested_images.py:82-97 | an index is skipped exactly when its file existed; a skipped image's URL is never requested; no existing file is written over |
| Properties.NoUrlProbedTwice | scrape_nested_images.py:57-79 | no image URL is probed twice in a run |
| Properties.ProbesRequests | scrape_nested_images.py:82-90 | within a page, an index's URL is requested exactly when its file did not exist |
| Properties.ProbesWrites | scrape_nested_images.py:90-97 | within a page, an index's file is written exactly when the server answered 200 |
| Properties.StopAtFirstFailure | scrape_nested_images.py:98-123 | if index j is the first failure, the page probes exactly 1..j: its requests are the earlier ones plus j's, its writes are the earlier ones only, and its report says it stopped at j with j-1 counted |
| Properties.NotFoundAtFirstIndex | scrape_nested_images.py:98-104 | a 404 at index 1 means one request, no file written and a count of zero |
| Properties.DownloadsThenNotFound | scrape_nested_images.py:92-104 | images 1..k downloaded and k+1 missing: exactly the files 1..k are written and exactly the URLs 1..k+1 requested |
| Properties.AllDownloadedReachesCap | scrape_nested_images.py:92-134 | every index up to the cap downloaded: all cap files are written and the cap report fires |
| Properties.SuccessesOfProbes | scrape_nested_images.py:85-97 | probes without a failure each count once |
| Properties.CounterCountsSuccesses | scrape_nested_images.py:76-97 | the page counter is the number of skipped-or-downloaded probes; it never exceeds the last index or the cap |
| Properties.CapReachedMeaning | scrape_nested_images.py:132-134 | the cap report fires exactly when every index up to the cap was probed and at least one counted; it always fires when the loop runs out |
| Properties.CapReportedAfterFailureAtCap | scrape_nested_images.py:128-134 | the cap report also fires when the failure is at the cap index itself |
| Properties.ImageListsIndex | scrape_nested_images.py:78-80 | entry t of the URL and path lists names image t+1 |
| Properties.WorkedCaseNames | scrape_nested_images.py:58-80 | base "http://x/a", prefix "p", output "out": image 1 of page 1 is fetched from "http://x/a/p_1/1.jpg" and saved as "out/p_1/1.jpg" |
| Properties.WorkedCasePage | scrape_nested_images.py:76-123 | in that setting, with images 1 and 2 on the server and 3 missing, page 1 probes 1, 2, 3 and stops on the 404 with 2 counted |
| Properties.WorkedCaseScenario | scrape_nested_images.py:45-134 | the same run end to end: three requests, two files written, and the final file system |

## Left out

- The HTTP transfer itself is a reply function keyed by URL. Streaming, chunking and the 10-second timeout are not modelled, and a 200 reply is written as one file.
- A connection error while a 200 body is streaming is not modelled. In the source this leaves a partial file and stops the page; a later run would skip that file as present.
- The four `requests` exception classes all end the page the same way, so they are one `TransportFailure`.
- An `OSError` from `open` while writing an image propagates out of the source function uncaught. The model treats every write as succeeding.
- `os.makedirs` is modelled by two sets: the paths that exist before the run and the paths whose creation fails. The parent directories it creates along the way are not added.
- `os.path.join` is concatenation with '/'. Its special cases (an absolute second component, a first component already ending in a separator) are not modelled.
- The `isinstance(.., int)` tests are not modelled, because the two counts are typed `int`.
- Printed messages are not modelled, including the different 404 wording at index 1.
- The branch at lines 128-131 does nothing, so it is not modelled. The same goes for the commented-out `time.sleep` and `raise_for_status`, the unused `time` import, and the `__main__` block.
- The function takes `num_parent_pages` and probes pages 1..N; it has no separate start page. The cap report fires when the counter is positive and the final index equals the cap. That includes a page whose last index, the cap itself, failed (`Properties.CapReportedAfterFailureAtCap`). The code is modelled as written; it is not limited to the loop running out.
