/**
 * The page component `Home`: its React state as the fields of one object,
 * and the handlers that update it. The network, FileReader and the timers
 * are inputs: each request's outcome and the progress ticks that fire while
 * it is in flight come in as an `Attempt`; a request the page sends is
 * appended to `requests`.
 */
module Page {
  import opened Wrappers
  import opened Selection
  import opened Prompts
  import opened Response
  import opened Progress
  import opened Generation

  const UploadMessage: string := "Please upload two images to continue."
  const SelectMessage: string := "Please select at least one prompt to generate."
  const GenericMessage: string := "An error occurred during generation. Please try again."

  /** The gallery shows once loading is over and every selected prompt has its image. */
  predicate ShowGallery(loading: bool, images: seq<Image>, selected: seq<string>) {
    !loading && |images| > 0 && |images| == |selected|
  }

  /**
   * After a run over a valid selection the gallery shows exactly when both
   * photos were read, at least one prompt was selected, and every request
   * came back with an image.
   */
  lemma GalleryAfterRun(selected: seq<string>, file1: ImageFile, file2: ImageFile, attempts: seq<Attempt>)
    requires SelectionValid(selected)
    ensures var r := RunReport(file1, file2, Chosen(selected), attempts);
      ShowGallery(false, r.images, selected) <==>
        && file1.dataUrl.Some? && file2.dataUrl.Some?
        && selected != []
        && forall j :: 0 <= j < |selected| ==> Succeeds(attempts, j)
  {
    SelectionValidMatches(selected);
    if file1.dataUrl.Some? && file2.dataUrl.Some? {
      ThrowsIffAFailure(Chosen(selected), Encoded(file1), Encoded(file2), attempts);
    }
  }

  /** Both photos are there and at least one prompt is selected: the run gets past its guards. */
  predicate Validated(image1: Option<ImageFile>, image2: Option<ImageFile>, selected: seq<string>) {
    image1.Some? && image2.Some? && selected != []
  }

  /**
   * The slots once the loop over `n` prompts has stopped at index `k` (the
   * first failure, or `n`): the slots before `k` are completed at 100, a
   * failing slot `k` is left generating below 100, and the slots after it are
   * still pending at zero.
   */
  predicate SlotsAfterLoop(progress: seq<real>, status: seq<Status>, k: nat, n: nat) {
    var rest := if k < n then k + 1 else k;
    && |progress| == |status| && k <= n <= |status|
    && (forall j :: 0 <= j < k ==> status[j] == Completed && progress[j] == 100.0)
    && (k < n ==> status[k] == Generating && 0.0 <= progress[k] < 100.0)
    && (forall j :: rest <= j < |status| ==> status[j] == Pending && progress[j] == 0.0)
  }

  /** While the loop is at `i`: the slots before `i` completed at 100, the rest still pending at zero. */
  predicate SlotsBefore(progress: seq<real>, status: seq<Status>, i: nat) {
    && |progress| == |status| && i <= |status|
    && (forall j :: 0 <= j < i ==> status[j] == Completed && progress[j] == 100.0)
    && (forall j :: i <= j < |status| ==> status[j] == Pending && progress[j] == 0.0)
  }

  /** Slot `i` completing moves the loop on to `i + 1`. */
  lemma SlotCompletes(progress: seq<real>, status: seq<Status>, progress': seq<real>, status': seq<Status>, i: nat)
    requires SlotsBefore(progress, status, i) && i < |status|
    requires |progress'| == |progress| && |status'| == |status|
    requires forall j :: 0 <= j < |status| && j != i ==> status'[j] == status[j] && progress'[j] == progress[j]
    requires status'[i] == Completed && progress'[i] == 100.0
    ensures SlotsBefore(progress', status', i + 1)
  {
  }

  /** Slot `i` failing stops the loop there, leaving the slot generating. */
  lemma SlotFails(progress: seq<real>, status: seq<Status>, progress': seq<real>, status': seq<Status>, i: nat, n: nat)
    requires SlotsBefore(progress, status, i) && i < n <= |status|
    requires |progress'| == |progress| && |status'| == |status|
    requires forall j :: 0 <= j < |status| && j != i ==> status'[j] == status[j] && progress'[j] == progress[j]
    requires status'[i] == Generating && 0.0 <= progress'[i] < 100.0
    ensures SlotsAfterLoop(progress', status', i, n)
  {
  }

  class Home {
    var loading: bool
    var error: string
    var generatedImages: seq<Image>
    var imageProgress: seq<real>
    var imageStatus: seq<Status>
    var selectedPrompts: seq<string>
    /** `uploadedFiles`: what the two upload boxes show. */
    var uploadedFile1: Option<ImageFile>
    var uploadedFile2: Option<ImageFile>
    /** Every POST sent to the generation service so far, in order. */
    var requests: seq<Request>
    /** The slots whose progress interval has been started and not cleared. */
    var liveIntervals: multiset<nat>

    ghost predicate Valid()
      reads this
    {
      SelectionValid(selectedPrompts) && InRange(imageProgress)
    }

    /** The initial `useState` values. */
    constructor ()
      ensures Valid()
      ensures !loading && error == "" && generatedImages == []
      ensures imageProgress == [] && imageStatus == [] && selectedPrompts == []
      ensures uploadedFile1.None? && uploadedFile2.None?
      ensures requests == [] && liveIntervals == multiset{}
    {
      loading := false;
      error := "";
      generatedImages := [];
      imageProgress := [];
      imageStatus := [];
      selectedPrompts := [];
      uploadedFile1, uploadedFile2 := None, None;
      requests := [];
      liveIntervals := multiset{};
    }

    /** `handlePromptToggle`, reached from the button of a table option. */
    method TogglePrompt(id: string)
      modifies this`selectedPrompts
      ensures selectedPrompts == Toggle(old(selectedPrompts), id)
      ensures old(Valid()) && IsPromptId(id) ==> Valid()
    {
      if old(Valid()) && IsPromptId(id) {
        ToggleKeepsSelectionValid(selectedPrompts, id);
      }
      selectedPrompts := Toggle(selectedPrompts, id);
    }

    /** `handleFileUpload`: the chosen file (None when the input is cleared) goes to its own box only. */
    method FileUpload(file: Option<ImageFile>, first: bool)
      modifies this`uploadedFile1, this`uploadedFile2
      ensures first ==> uploadedFile1 == file && uploadedFile2 == old(uploadedFile2)
      ensures !first ==> uploadedFile2 == file && uploadedFile1 == old(uploadedFile1)
    {
      if first {
        uploadedFile1 := file;
      } else {
        uploadedFile2 := file;
      }
    }

    /** One firing of a still running progress interval of `slot`. */
    method IntervalFires(slot: nat, d: Increment)
      requires slot in liveIntervals
      modifies this`imageProgress
      ensures imageProgress == Tick(old(imageProgress), slot, d)
      ensures old(Valid()) ==> Valid()
    {
      imageProgress := Tick(imageProgress, slot, d);
    }

    /** Everything but `error` is as it was, and `error` is `message`. */
    twostate predicate OnlyError(message: string)
      reads this
    {
      error == message && loading == old(loading) &&
      generatedImages == old(generatedImages) && imageProgress == old(imageProgress) &&
      imageStatus == old(imageStatus) && selectedPrompts == old(selectedPrompts) &&
      requests == old(requests) && liveIntervals == old(liveIntervals)
    }

    /**
     * The loop body up to the `fetch`: slot `i` becomes generating, its
     * progress interval starts and fires `ticks` while the request is in
     * flight, and the request for `option` is sent.
     */
    method StartRequest(option: PromptOption, i: nat, base64Image1: RequestImage, base64Image2: RequestImage,
                        ticks: seq<Increment>)
      requires i < |imageProgress| && |imageStatus| == |imageProgress|
      requires InRange(imageProgress) && imageProgress[i] < 100.0
      modifies this`imageProgress, this`imageStatus, this`requests, this`liveIntervals
      ensures imageStatus == SetSlot(old(imageStatus), i, Generating)
      ensures imageProgress == Ticks(old(imageProgress), i, ticks)
      ensures |imageProgress| == |old(imageProgress)| && InRange(imageProgress)
      ensures old(imageProgress)[i] <= imageProgress[i] < 100.0
      ensures forall j :: 0 <= j < |imageProgress| && j != i ==> imageProgress[j] == old(imageProgress)[j]
      ensures requests == old(requests) + [Request(option.prompt, base64Image1, base64Image2)]
      ensures liveIntervals == old(liveIntervals) + multiset{i}
    {
      imageStatus := SetSlot(imageStatus, i, Generating);
      liveIntervals := liveIntervals + multiset{i};
      TicksBounded(imageProgress, i, ticks);
      imageProgress := Ticks(imageProgress, i, ticks);
      requests := requests + [Request(option.prompt, base64Image1, base64Image2)];
    }

    /**
     * The loop body from the response on: a non-OK status throws before the
     * interval is cleared; an OK response clears it and either completes the
     * slot with its image or throws for want of one.
     */
    method ReceiveResponse(option: PromptOption, i: nat, outcome: Outcome) returns (thrown: Option<RunError>)
      requires i < |imageProgress| && |imageStatus| == |imageProgress| && InRange(imageProgress)
      modifies this`generatedImages, this`imageProgress, this`imageStatus, this`liveIntervals
      ensures thrown.None? <==> ImageOf(outcome).Some?
      ensures thrown.Some? ==> thrown == Some(FailureOf(option, outcome))
      ensures generatedImages ==
        if thrown.None? then old(generatedImages) + [ImageFor(option, ImageOf(outcome).value)]
        else old(generatedImages)
      ensures liveIntervals ==
        if LeavesIntervalRunning(outcome) then old(liveIntervals) else old(liveIntervals) - multiset{i}
      ensures thrown.None? ==>
        imageProgress == SetSlot(old(imageProgress), i, 100.0) &&
        imageStatus == SetSlot(old(imageStatus), i, Completed)
      ensures thrown.Some? ==> imageProgress == old(imageProgress) && imageStatus == old(imageStatus)
      ensures InRange(imageProgress)
    {
      match outcome {
        case Rejected =>
          thrown := Some(Transport);
        case Answered(status, parts) =>
          if !IsOk(status) {
            thrown := Some(HttpFailed(status));
          } else {
            var found := if parts.Some? then FindImagePart(parts.value) else None;
            liveIntervals := liveIntervals - multiset{i};
            if found.Some? {
              var generatedImage := parts.value[found.value].inlineData.value;
              generatedImages := generatedImages + [ImageFor(option, generatedImage)];
              imageProgress := SetSlot(imageProgress, i, 100.0);
              imageStatus := SetSlot(imageStatus, i, Completed);
              thrown := None;
            } else {
              thrown := Some(NoImage(option.caption));
            }
          }
      }
    }

    /**
     * One pass of the `for` loop of `handleGenerate`: prompt `i` is marked
     * generating, its interval runs while the request is in flight, and the
     * response either completes the slot or throws.
     */
    method RequestPrompt(options: seq<PromptOption>, i: nat, base64Image1: RequestImage, base64Image2: RequestImage,
                         attempts: seq<Attempt>)
      returns (thrown: Option<RunError>)
      requires i < |options| && i < |imageProgress| && |imageStatus| == |imageProgress|
      requires InRange(imageProgress) && imageProgress[i] < 100.0
      modifies this`generatedImages, this`imageProgress, this`imageStatus, this`requests, this`liveIntervals
      ensures thrown.None? <==> Succeeds(attempts, i)
      ensures thrown.Some? ==> thrown == Some(FailureOf(options[i], AttemptAt(attempts, i).outcome))
      ensures requests == old(requests) + [Request(options[i].prompt, base64Image1, base64Image2)]
      ensures generatedImages ==
        if thrown.None? then old(generatedImages) + [ImageFor(options[i], ReturnedImage(attempts, i))]
        else old(generatedImages)
      ensures liveIntervals == old(liveIntervals) +
        (if thrown.Some? && LeavesIntervalRunning(AttemptAt(attempts, i).outcome) then multiset{i} else multiset{})
      ensures |imageProgress| == |old(imageProgress)| && |imageStatus| == |old(imageStatus)|
      ensures InRange(imageProgress)
      ensures forall j :: 0 <= j < |imageStatus| && j != i ==>
        imageStatus[j] == old(imageStatus)[j] && imageProgress[j] == old(imageProgress)[j]
      ensures thrown.None? ==> imageStatus[i] == Completed && imageProgress[i] == 100.0
      ensures thrown.Some? ==> imageStatus[i] == Generating && imageProgress[i] < 100.0
    {
      var attempt := AttemptAt(attempts, i);
      StartRequest(options[i], i, base64Image1, base64Image2, attempt.ticks);
      thrown := ReceiveResponse(options[i], i, attempt.outcome);
    }

    /**
     * The `for` loop of `handleGenerate` over `options`, one request at a
     * time, from freshly reset slots; `thrown` is what it throws.
     */
    method RunPrompts(options: seq<PromptOption>, base64Image1: RequestImage, base64Image2: RequestImage,
                      attempts: seq<Attempt>)
      returns (thrown: Option<RunError>)
      requires |options| <= |imageProgress| && |imageStatus| == |imageProgress|
      requires forall j :: 0 <= j < |imageProgress| ==> imageStatus[j] == Pending && imageProgress[j] == 0.0
      requires generatedImages == []
      modifies this`generatedImages, this`imageProgress, this`imageStatus, this`requests, this`liveIntervals
      ensures |imageProgress| == |old(imageProgress)| && |imageStatus| == |old(imageStatus)|
      ensures InRange(imageProgress)
      ensures SlotsAfterLoop(imageProgress, imageStatus, FirstFailure(attempts, |options|), |options|)
      ensures var r := LoopReport(options, base64Image1, base64Image2, attempts);
        && generatedImages == r.images
        && requests == old(requests) + r.sent
        && thrown == r.thrown
        && liveIntervals == old(liveIntervals) + r.leaked
    {
      var slots := |imageProgress|;
      var i := 0;
      while i < |options|
        invariant 0 <= i <= |options| <= slots
        invariant |imageProgress| == slots && |imageStatus| == slots
        invariant InRange(imageProgress)
        invariant forall j :: 0 <= j < i ==> Succeeds(attempts, j)
        invariant generatedImages == Images(options, attempts, i)
        invariant requests == old(requests) + Requests(options, i, base64Image1, base64Image2)
        invariant liveIntervals == old(liveIntervals)
        invariant SlotsBefore(imageProgress, imageStatus, i)
      {
        ghost var progress, status := imageProgress, imageStatus;
        thrown := RequestPrompt(options, i, base64Image1, base64Image2, attempts);
        if thrown.Some? {
          // the exception leaves the loop at the first failing request
          SlotFails(progress, status, imageProgress, imageStatus, i, |options|);
          RunEndsAt(options, attempts, i);
          ReportAt(options, base64Image1, base64Image2, attempts, i);
          return;
        }
        SlotCompletes(progress, status, imageProgress, imageStatus, i);
        i := i + 1;
      }
      RunEndsAt(options, attempts, i);
      ReportAt(options, base64Image1, base64Image2, attempts, i);
      thrown := None;
    }

    /**
     * The `try` block of `handleGenerate`: both photos are read, then the
     * loop runs over the chosen prompts.
     */
    method TryGenerate(file1: ImageFile, file2: ImageFile, attempts: seq<Attempt>) returns (thrown: Option<RunError>)
      requires |Chosen(selectedPrompts)| <= |imageProgress| && |imageStatus| == |imageProgress|
      requires forall j :: 0 <= j < |imageProgress| ==> imageStatus[j] == Pending && imageProgress[j] == 0.0
      requires generatedImages == []
      modifies this`generatedImages, this`imageProgress, this`imageStatus, this`requests, this`liveIntervals
      ensures file1.dataUrl.None? || file2.dataUrl.None? ==>
        imageProgress == old(imageProgress) && imageStatus == old(imageStatus)
      ensures file1.dataUrl.Some? && file2.dataUrl.Some? ==>
        var n := |Chosen(selectedPrompts)|;
        SlotsAfterLoop(imageProgress, imageStatus, FirstFailure(attempts, n), n)
      ensures |imageProgress| == |old(imageProgress)| && |imageStatus| == |old(imageStatus)|
      ensures var r := RunReport(file1, file2, Chosen(selectedPrompts), attempts);
        && generatedImages == r.images
        && requests == old(requests) + r.sent
        && thrown == r.thrown
        && liveIntervals == old(liveIntervals) + r.leaked
    {
      if file1.dataUrl.None? || file2.dataUrl.None? {
        thrown := Some(ReadFailed);
      } else {
        thrown := RunPrompts(Chosen(selectedPrompts), Encoded(file1), Encoded(file2), attempts);
      }
    }

    /** Before the `try` block: the message is cleared and one pending slot at zero per selected id. */
    method StartRun()
      modifies this`error, this`loading, this`generatedImages, this`imageProgress, this`imageStatus
      ensures error == "" && loading && generatedImages == []
      ensures |imageProgress| == |selectedPrompts| && |imageStatus| == |selectedPrompts|
      ensures forall j :: 0 <= j < |imageProgress| ==> imageStatus[j] == Pending && imageProgress[j] == 0.0
    {
      error := "";
      loading := true;
      generatedImages := [];
      var selectedCount := |selectedPrompts|;
      imageProgress := Filled(selectedCount, 0.0);
      imageStatus := Filled(selectedCount, Pending);
    }

    /** The `finally` block: loading ends and three fresh pending slots replace the run's. */
    method Finally()
      modifies this`loading, this`imageProgress, this`imageStatus
      ensures !loading && imageProgress == [0.0, 0.0, 0.0] && imageStatus == [Pending, Pending, Pending]
      ensures InRange(imageProgress)
    {
      loading := false;
      imageProgress := [0.0, 0.0, 0.0];
      imageStatus := [Pending, Pending, Pending];
    }

    /**
     * `handleGenerate`. `thrown` is the error the `catch` block receives,
     * None when the run completes or a guard returns early.
     */
    method Generate(attempts: seq<Attempt>)
      returns (thrown: Option<RunError>)
      modifies this`loading, this`error, this`generatedImages, this`imageProgress, this`imageStatus,
        this`requests, this`liveIntervals
      ensures selectedPrompts == old(selectedPrompts)
      ensures old(Valid()) ==> Valid()
      // the guards: only the error message changes
      ensures (uploadedFile1.None? || uploadedFile2.None?) ==> OnlyError(UploadMessage) && thrown.None?
      ensures uploadedFile1.Some? && uploadedFile2.Some? && old(selectedPrompts) == [] ==> OnlyError(SelectMessage) && thrown.None?
      // past the guards: the `finally` values, and the generic message when something was thrown
      ensures Validated(uploadedFile1, uploadedFile2, old(selectedPrompts)) ==>
        && !loading
        && imageProgress == [0.0, 0.0, 0.0]
        && imageStatus == [Pending, Pending, Pending]
        && error == (if thrown.None? then "" else GenericMessage)
      // past the guards: what the `try` block did
      ensures Validated(uploadedFile1, uploadedFile2, old(selectedPrompts)) ==>
        var r := RunReport(uploadedFile1.value, uploadedFile2.value, Chosen(old(selectedPrompts)), attempts);
        && generatedImages == r.images
        && requests == old(requests) + r.sent
        && thrown == r.thrown
        && liveIntervals == old(liveIntervals) + r.leaked
      // past the guards, from a valid state: whether the gallery shows
      ensures old(Valid()) && Validated(uploadedFile1, uploadedFile2, old(selectedPrompts)) ==>
        (ShowGallery(loading, generatedImages, selectedPrompts) <==>
          && uploadedFile1.value.dataUrl.Some? && uploadedFile2.value.dataUrl.Some?
          && forall j :: 0 <= j < |selectedPrompts| ==> Succeeds(attempts, j))
    {
      if uploadedFile1.None? || uploadedFile2.None? {
        error := UploadMessage;
        return None;
      }
      if |selectedPrompts| == 0 {
        error := SelectMessage;
        return None;
      }
      StartRun();
      thrown := TryGenerate(uploadedFile1.value, uploadedFile2.value, attempts);
      if thrown.Some? {
        error := GenericMessage;
      }
      Finally();
      if SelectionValid(selectedPrompts) {
        GalleryAfterRun(selectedPrompts, uploadedFile1.value, uploadedFile2.value, attempts);
      }
    }
  }
}
