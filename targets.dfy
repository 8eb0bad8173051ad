/** The scraper's configuration, its validation, and the names it derives
    from it: the page segment, the page's image base URL, the image URL,
    the page directory and the image's local path. */
module Targets {
  import opened Text

  /** The arguments of `scrape_images_from_pages`, with the source's
      defaults for the last three. The two counts are plain integers: the
      source's `isinstance(.., int)` tests become the type. */
  datatype Config = Config(
    baseUrl: string,
    pagePrefix: string,
    numPages: int,
    imageExtension: string := ".jpg",
    maxImagesPerPage: int := 200,
    outputDirectory: string := "scraped_pictures_by_page")

  /** The four constraints, in the order the source checks them. */
  datatype ConfigError = BadBaseUrl | BadImageExtension | BadNumPages | BadMaxImages

  datatype Verdict = Accepted | Refused(error: ConfigError)

  predicate HasWebScheme(url: string) {
    StartsWith(url, "http://") || StartsWith(url, "https://")
  }

  /** Whether `cfg` breaks the constraint that `e` names. */
  predicate Violates(cfg: Config, e: ConfigError) {
    match e
    case BadBaseUrl => !HasWebScheme(cfg.baseUrl)
    case BadImageExtension => !StartsWith(cfg.imageExtension, ".")
    case BadNumPages => cfg.numPages <= 0
    case BadMaxImages => cfg.maxImagesPerPage <= 0
  }

  function Rank(e: ConfigError): nat {
    match e
    case BadBaseUrl => 0
    case BadImageExtension => 1
    case BadNumPages => 2
    case BadMaxImages => 3
  }

  predicate Valid(cfg: Config) {
    && HasWebScheme(cfg.baseUrl)
    && StartsWith(cfg.imageExtension, ".")
    && cfg.numPages > 0
    && cfg.maxImagesPerPage > 0
  }

  /** The guards at the top of the function: a configuration is accepted
      exactly when it is valid, and otherwise the first violated constraint,
      in the source's order, is reported. */
  function Validate(cfg: Config): (v: Verdict)
    ensures v == Accepted <==> Valid(cfg)
    ensures v.Refused? ==> Violates(cfg, v.error)
    ensures v.Refused? ==> forall e :: Rank(e) < Rank(v.error) ==> !Violates(cfg, e)
  {
    if !HasWebScheme(cfg.baseUrl) then Refused(BadBaseUrl)
    else if !StartsWith(cfg.imageExtension, ".") then Refused(BadImageExtension)
    else if cfg.numPages <= 0 then Refused(BadNumPages)
    else if cfg.maxImagesPerPage <= 0 then Refused(BadMaxImages)
    else Accepted
  }

  /** Valid means that no constraint is violated. */
  lemma ValidMeansNoViolation(cfg: Config)
    ensures Valid(cfg) <==> forall e :: !Violates(cfg, e)
  {
    if !Valid(cfg) {
      var v := Validate(cfg);
      assert Violates(cfg, v.error);
    }
  }

  /** `f"{prefix}_{page_num}"` */
  function PageSegment(prefix: string, page: nat): string {
    prefix + "_" + Decimal(page)
  }

  /** `f"{base.rstrip('/')}/{segment}"` */
  function PageBaseUrl(baseUrl: string, segment: string): string {
    RStrip(baseUrl, '/') + "/" + segment
  }

  /** `f"{image_idx}{image_extension}"` */
  function ImageFileName(idx: nat, ext: string): string {
    Decimal(idx) + ext
  }

  /** `os.path.join(dir, name)`, as concatenation with the separator '/'. */
  function Join(dir: string, name: string): string {
    dir + "/" + name
  }

  function ImageUrl(cfg: Config, page: nat, idx: nat): string {
    PageBaseUrl(cfg.baseUrl, PageSegment(cfg.pagePrefix, page)) + "/" + ImageFileName(idx, cfg.imageExtension)
  }

  function PageDir(cfg: Config, page: nat): string {
    Join(cfg.outputDirectory, PageSegment(cfg.pagePrefix, page))
  }

  function ImagePath(cfg: Config, page: nat, idx: nat): string {
    Join(PageDir(cfg, page), ImageFileName(idx, cfg.imageExtension))
  }

  /** What every page directory and image path starts with. */
  function PathStem(cfg: Config): string {
    cfg.outputDirectory + "/" + cfg.pagePrefix + "_"
  }

  /** What every image URL starts with. */
  function UrlStem(cfg: Config): string {
    RStrip(cfg.baseUrl, '/') + "/" + cfg.pagePrefix + "_"
  }

  lemma PageDirShape(cfg: Config, page: nat)
    ensures PageDir(cfg, page) == PathStem(cfg) + Decimal(page)
  {
  }

  lemma ImagePathShape(cfg: Config, page: nat, idx: nat)
    ensures ImagePath(cfg, page, idx)
         == PathStem(cfg) + (Decimal(page) + "/" + (Decimal(idx) + cfg.imageExtension))
  {
  }

  /** The image URL is the stripped base, '/', the page segment, '/', the
      index and the extension; the stripped base is not empty and does not
      end in '/', so no '//' appears before the segment however many
      slashes the base ends with, and the base is the stripped base followed
      by slashes only. */
  lemma ImageUrlShape(cfg: Config, page: nat, idx: nat)
    requires HasWebScheme(cfg.baseUrl)
    ensures var b := RStrip(cfg.baseUrl, '/');
      && ImageUrl(cfg, page, idx)
         == b + "/" + cfg.pagePrefix + "_" + Decimal(page) + "/" + Decimal(idx) + cfg.imageExtension
      && ImageUrl(cfg, page, idx) == UrlStem(cfg) + (Decimal(page) + "/" + (Decimal(idx) + cfg.imageExtension))
      && |b| > 0 && b[|b| - 1] != '/'
      && StartsWith(cfg.baseUrl, b)
      && forall i :: |b| <= i < |cfg.baseUrl| ==> cfg.baseUrl[i] == '/'
  {
    var b := RStrip(cfg.baseUrl, '/');
    RStripRemovesOnlyTrailing(cfg.baseUrl, '/');
    assert cfg.baseUrl[0] == 'h';
  }

  /** Trailing slashes on the base URL never change an image URL. */
  lemma TrailingSlashesIgnored(cfg: Config, slashes: string, page: nat, idx: nat)
    requires forall i :: 0 <= i < |slashes| ==> slashes[i] == '/'
    ensures ImageUrl(cfg.(baseUrl := cfg.baseUrl + slashes), page, idx) == ImageUrl(cfg, page, idx)
  {
    RStripIgnoresTrailing(cfg.baseUrl, '/', slashes);
  }

  /** `stem + page + "/" + idx + ext` determines page and idx. */
  lemma NumberedInjective(stem: string, ext: string, p: nat, i: nat, q: nat, j: nat)
    ensures stem + (Decimal(p) + "/" + (Decimal(i) + ext)) == stem + (Decimal(q) + "/" + (Decimal(j) + ext))
            ==> p == q && i == j
  {
    DecimalDigits(p);
    DecimalDigits(q);
    PrefixCancel(stem, Decimal(p) + "/" + (Decimal(i) + ext), Decimal(q) + "/" + (Decimal(j) + ext));
    DigitsThenSlash(Decimal(p), Decimal(i) + ext, Decimal(q), Decimal(j) + ext);
    SuffixCancel(Decimal(i), Decimal(j), ext);
    DecimalInjective(p, q);
    DecimalInjective(i, j);
  }

  /** Distinct (page, index) pairs are saved to distinct paths. */
  lemma ImagePathInjective(cfg: Config, p: nat, i: nat, q: nat, j: nat)
    ensures ImagePath(cfg, p, i) == ImagePath(cfg, q, j) ==> p == q && i == j
  {
    ImagePathShape(cfg, p, i);
    ImagePathShape(cfg, q, j);
    NumberedInjective(PathStem(cfg), cfg.imageExtension, p, i, q, j);
  }

  /** Distinct (page, index) pairs are fetched from distinct URLs. */
  lemma ImageUrlInjective(cfg: Config, p: nat, i: nat, q: nat, j: nat)
    ensures ImageUrl(cfg, p, i) == ImageUrl(cfg, q, j) ==> p == q && i == j
  {
    assert ImageUrl(cfg, p, i) == UrlStem(cfg) + (Decimal(p) + "/" + (Decimal(i) + cfg.imageExtension));
    assert ImageUrl(cfg, q, j) == UrlStem(cfg) + (Decimal(q) + "/" + (Decimal(j) + cfg.imageExtension));
    NumberedInjective(UrlStem(cfg), cfg.imageExtension, p, i, q, j);
  }

  /** Distinct pages have distinct directories. */
  lemma PageDirInjective(cfg: Config, p: nat, q: nat)
    ensures PageDir(cfg, p) == PageDir(cfg, q) ==> p == q
  {
    PageDirShape(cfg, p);
    PageDirShape(cfg, q);
    PrefixCancel(PathStem(cfg), Decimal(p), Decimal(q));
    DecimalInjective(p, q);
  }

  /** No image path is a page directory. */
  lemma ImagePathIsNotPageDir(cfg: Config, p: nat, i: nat, q: nat)
    ensures ImagePath(cfg, p, i) != PageDir(cfg, q)
  {
    ImagePathShape(cfg, p, i);
    PageDirShape(cfg, q);
    DecimalDigits(p);
    DecimalDigits(q);
    PrefixCancel(PathStem(cfg), Decimal(p) + "/" + (Decimal(i) + cfg.imageExtension), Decimal(q));
    DigitsHaveNoSlash(Decimal(p), Decimal(i) + cfg.imageExtension, Decimal(q));
  }
}
