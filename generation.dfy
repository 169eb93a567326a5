/**
 * What one generation run produces, as functions of its inputs: the prompts
 * it walks, the request outcomes the network supplies, and the two files.
 * The page's imperative loop (module Page) is proved against these.
 */
module Generation {
  import opened Wrappers
  import opened Prompts
  import opened Response
  import opened Progress

  /**
   * One request as the environment decides it: the ticks of the slot's
   * progress interval that fire while the request is in flight, then how
   * the request ends.
   */
  datatype Attempt = Attempt(ticks: seq<Increment>, outcome: Outcome)

  /** A generated image as the page keeps it: `{ src, alt }`. */
  datatype Image = Image(src: string, alt: string)

  /**
   * An uploaded photo: its MIME type and the data URL that FileReader
   * produces for it (None when the read fails or yields no string).
   */
  datatype ImageFile = ImageFile(mimeType: string, dataUrl: Option<string>)

  /** One photo in the request body; `data` is None when `split(',')[1]` is `undefined`. */
  datatype RequestImage = RequestImage(mimeType: string, data: Option<string>)

  /** The body of one POST: the prompt text and both photos. */
  datatype Request = Request(text: string, image1: RequestImage, image2: RequestImage)

  /** What the `catch` block receives. */
  datatype RunError =
    | ReadFailed               // fileToBase64 rejected
    | Transport                // fetch or response.json() rejected
    | HttpFailed(status: int)  // 'API response failed. Status: ' + status
    | NoImage(caption: string) // 'No image returned for prompt: ' + label

  /**
   * The outcome of request `i`; a request beyond the supplied ones is taken
   * to be rejected by the network.
   */
  function AttemptAt(attempts: seq<Attempt>, i: nat): Attempt {
    if i < |attempts| then attempts[i] else Attempt([], Rejected)
  }

  /** Request `i` comes back with an image. */
  predicate Succeeds(attempts: seq<Attempt>, i: nat) {
    ImageOf(AttemptAt(attempts, i).outcome).Some?
  }

  /** The image data request `i` returned. */
  function ReturnedImage(attempts: seq<Attempt>, i: nat): InlineData
    requires Succeeds(attempts, i)
  {
    ImageOf(AttemptAt(attempts, i).outcome).value
  }

  /** The index of the first of `n` requests that fails, or `n` when none does. */
  function FirstFailure(attempts: seq<Attempt>, n: nat): (k: nat)
    ensures k <= n
    ensures forall j :: 0 <= j < k ==> Succeeds(attempts, j)
    ensures k < n ==> !Succeeds(attempts, k)
    decreases n
  {
    if n == 0 then 0
    else
      var k := FirstFailure(attempts, n - 1);
      if k < n - 1 then k
      else if Succeeds(attempts, n - 1) then n
      else n - 1
  }

  /** Any index with the first-failure properties is the first failure. */
  lemma FirstFailureUnique(attempts: seq<Attempt>, n: nat, k: nat)
    requires k <= n
    requires forall j :: 0 <= j < k ==> Succeeds(attempts, j)
    requires k < n ==> !Succeeds(attempts, k)
    ensures k == FirstFailure(attempts, n)
  {
  }

  /** The result pushed for a prompt whose response held image data `d`. */
  function ImageFor(option: PromptOption, d: InlineData): Image {
    Image(DataUri(d.mimeType, d.data), option.caption)
  }

  /** The images of the first `m` prompts, all of which succeeded. */
  function Images(options: seq<PromptOption>, attempts: seq<Attempt>, m: nat): (r: seq<Image>)
    requires m <= |options|
    requires forall j :: 0 <= j < m ==> Succeeds(attempts, j)
    ensures |r| == m
    decreases m
  {
    if m == 0 then []
    else Images(options, attempts, m - 1) + [ImageFor(options[m - 1], ReturnedImage(attempts, m - 1))]
  }

  /** The images a run over `options` leaves on screen. */
  function RunImages(options: seq<PromptOption>, attempts: seq<Attempt>): seq<Image> {
    Images(options, attempts, FirstFailure(attempts, |options|))
  }

  /** How many requests a run over `n` prompts issues: up to and including the first failure. */
  function Attempted(attempts: seq<Attempt>, n: nat): nat {
    var k := FirstFailure(attempts, n);
    if k < n then k + 1 else n
  }

  /** `fileToBase64` on a file that reads, as the request carries it. */
  function Encoded(f: ImageFile): RequestImage
    requires f.dataUrl.Some?
  {
    RequestImage(f.mimeType, Base64Field(f.dataUrl.value))
  }

  /** The bodies of the requests for the first `m` prompts, in order. */
  function Requests(options: seq<PromptOption>, m: nat, image1: RequestImage, image2: RequestImage): (r: seq<Request>)
    requires m <= |options|
    ensures |r| == m
    decreases m
  {
    if m == 0 then []
    else Requests(options, m - 1, image1, image2) + [Request(options[m - 1].prompt, image1, image2)]
  }

  /** Why a failing request aborts the run. */
  function FailureOf(option: PromptOption, o: Outcome): RunError {
    match o
    case Rejected => Transport
    case Answered(status, _) => if IsOk(status) then NoImage(option.caption) else HttpFailed(status)
  }

  /**
   * A request that ends before `clearInterval` is reached leaves its slot's
   * progress interval running: a rejection, or a non-OK status.
   */
  predicate LeavesIntervalRunning(o: Outcome) {
    o.Rejected? || !IsOk(o.status)
  }

  /**
   * What one run leaves behind: the images on screen, the requests it sent,
   * what it throws, and the progress intervals it never clears.
   */
  datatype Report = Report(images: seq<Image>, sent: seq<Request>, thrown: Option<RunError>, leaked: multiset<nat>)

  /** The loop over `options`: requests up to the first failure, which throws and may leak its interval. */
  function LoopReport(options: seq<PromptOption>, image1: RequestImage, image2: RequestImage,
                      attempts: seq<Attempt>): Report
  {
    var n := |options|;
    var k := FirstFailure(attempts, n);
    Report(
      RunImages(options, attempts),
      Requests(options, Attempted(attempts, n), image1, image2),
      if k == n then None else Some(FailureOf(options[k], AttemptAt(attempts, k).outcome)),
      if k < n && LeavesIntervalRunning(AttemptAt(attempts, k).outcome) then multiset{k} else multiset{})
  }

  /** The `try` block: a photo that does not read throws before any request is sent. */
  function RunReport(file1: ImageFile, file2: ImageFile, options: seq<PromptOption>, attempts: seq<Attempt>): Report {
    if file1.dataUrl.None? || file2.dataUrl.None? then Report([], [], Some(ReadFailed), multiset{})
    else LoopReport(options, Encoded(file1), Encoded(file2), attempts)
  }

  /** The `j`th image is the one built from the `j`th prompt and the `j`th response. */
  lemma {:induction false} ImagesShape(options: seq<PromptOption>, attempts: seq<Attempt>, m: nat)
    requires m <= |options|
    requires forall j :: 0 <= j < m ==> Succeeds(attempts, j)
    ensures forall j :: 0 <= j < m ==> Images(options, attempts, m)[j] == ImageFor(options[j], ReturnedImage(attempts, j))
    decreases m
  {
    if m > 0 {
      ImagesShape(options, attempts, m - 1);
    }
  }

  /** The `j`th request carries the `j`th prompt's text and both photos. */
  lemma {:induction false} RequestsShape(options: seq<PromptOption>, m: nat, image1: RequestImage, image2: RequestImage)
    requires m <= |options|
    ensures forall j :: 0 <= j < m ==> Requests(options, m, image1, image2)[j] == Request(options[j].prompt, image1, image2)
    decreases m
  {
    if m > 0 {
      RequestsShape(options, m - 1, image1, image2);
    }
  }

  /**
   * A run over `options` whose first failing request is `k` (`|options|`
   * when none fails) shows the images of the prompts before `k` and issues
   * requests up to and including `k`.
   */
  lemma RunEndsAt(options: seq<PromptOption>, attempts: seq<Attempt>, k: nat)
    requires k <= |options|
    requires forall j :: 0 <= j < k ==> Succeeds(attempts, j)
    requires k < |options| ==> !Succeeds(attempts, k)
    ensures FirstFailure(attempts, |options|) == k
    ensures RunImages(options, attempts) == Images(options, attempts, k)
    ensures Attempted(attempts, |options|) == if k < |options| then k + 1 else k
  {
    FirstFailureUnique(attempts, |options|, k);
  }

  /** The report of a run whose first failing request is `k`, spelled out. */
  lemma ReportAt(options: seq<PromptOption>, image1: RequestImage, image2: RequestImage,
                 attempts: seq<Attempt>, k: nat)
    requires k <= |options|
    requires forall j :: 0 <= j < k ==> Succeeds(attempts, j)
    requires k < |options| ==> !Succeeds(attempts, k)
    ensures LoopReport(options, image1, image2, attempts) ==
      if k == |options| then
        Report(Images(options, attempts, k), Requests(options, k, image1, image2), None, multiset{})
      else
        Report(Images(options, attempts, k), Requests(options, k + 1, image1, image2),
               Some(FailureOf(options[k], AttemptAt(attempts, k).outcome)),
               if LeavesIntervalRunning(AttemptAt(attempts, k).outcome) then multiset{k} else multiset{})
  {
    RunEndsAt(options, attempts, k);
  }

  /**
   * A run in which every request succeeds shows one image per prompt, in
   * prompt order, sends one request per prompt, throws nothing and clears
   * every interval.
   */
  lemma AllSucceed(options: seq<PromptOption>, image1: RequestImage, image2: RequestImage, attempts: seq<Attempt>)
    requires forall j :: 0 <= j < |options| ==> Succeeds(attempts, j)
    ensures var r := LoopReport(options, image1, image2, attempts);
      && |r.images| == |options|
      && (forall j :: 0 <= j < |options| ==> r.images[j] == ImageFor(options[j], ReturnedImage(attempts, j)))
      && r.sent == Requests(options, |options|, image1, image2)
      && r.thrown.None?
      && r.leaked == multiset{}
  {
    RunEndsAt(options, attempts, |options|);
    ImagesShape(options, attempts, |options|);
  }

  /**
   * A run whose request `k` is the first to fail keeps the images of the
   * prompts before `k`, sends no request after `k`, and throws the reason
   * request `k` failed.
   */
  lemma StopsAtFirstFailure(options: seq<PromptOption>, image1: RequestImage, image2: RequestImage,
                            attempts: seq<Attempt>, k: nat)
    requires k < |options| && !Succeeds(attempts, k)
    requires forall j :: 0 <= j < k ==> Succeeds(attempts, j)
    ensures var r := LoopReport(options, image1, image2, attempts);
      && r.images == Images(options, attempts, k)
      && |r.images| == k
      && r.sent == Requests(options, k + 1, image1, image2)
      && r.thrown == Some(FailureOf(options[k], AttemptAt(attempts, k).outcome))
  {
    RunEndsAt(options, attempts, k);
  }

  /** A run throws exactly when one of its requests fails, and otherwise shows an image for every prompt. */
  lemma ThrowsIffAFailure(options: seq<PromptOption>, image1: RequestImage, image2: RequestImage, attempts: seq<Attempt>)
    ensures var r := LoopReport(options, image1, image2, attempts);
      && (r.thrown.None? <==> forall j :: 0 <= j < |options| ==> Succeeds(attempts, j))
      && (r.thrown.None? <==> |r.images| == |options|)
  {
    var k := FirstFailure(attempts, |options|);
    RunEndsAt(options, attempts, k);
  }

  /**
   * The requests sent are the first prompts' texts in prompt order, each
   * with both photos; there is at most one per prompt.
   */
  lemma SentInPromptOrder(options: seq<PromptOption>, image1: RequestImage, image2: RequestImage, attempts: seq<Attempt>)
    ensures var r := LoopReport(options, image1, image2, attempts);
      && |r.sent| <= |options|
      && |r.images| <= |r.sent|
      && forall j :: 0 <= j < |r.sent| ==> r.sent[j] == Request(options[j].prompt, image1, image2)
  {
    RequestsShape(options, Attempted(attempts, |options|), image1, image2);
  }

  /**
   * At most one interval is left running, and only by a request that
   * threw before `clearInterval`: a rejected request or a non-OK status,
   * never a response without an image.
   */
  lemma LeakOnlyBeforeClear(options: seq<PromptOption>, image1: RequestImage, image2: RequestImage, attempts: seq<Attempt>)
    ensures var r := LoopReport(options, image1, image2, attempts);
      && |r.leaked| <= 1
      && (r.leaked != multiset{} ==> r.thrown.Some? && (r.thrown.value.Transport? || r.thrown.value.HttpFailed?))
      && (r.thrown.Some? && (r.thrown.value.Transport? || r.thrown.value.HttpFailed?) ==>
            r.leaked == multiset{FirstFailure(attempts, |options|)})
  {
  }

  /** The shown images' sources give back the payload the service returned. */
  lemma ImageSourcesRoundTrip(options: seq<PromptOption>, image1: RequestImage, image2: RequestImage,
                              attempts: seq<Attempt>, j: nat)
    requires j < |LoopReport(options, image1, image2, attempts).images|
    ensures Succeeds(attempts, j)
    ensures var d := ReturnedImage(attempts, j);
      ',' !in d.mimeType && ',' !in d.data ==>
        Base64Field(LoopReport(options, image1, image2, attempts).images[j].src) == Some(d.data)
  {
    var k := FirstFailure(attempts, |options|);
    ImagesShape(options, attempts, k);
    var d := ReturnedImage(attempts, j);
    if ',' !in d.mimeType && ',' !in d.data {
      DataUriRoundTrip(d.mimeType, d.data);
    }
  }
}
