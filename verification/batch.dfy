/**
 * The batch driver (script.py, the __main__ block): pick the directory
 * entries with the requested extension, plan one job per file with the
 * output named like the input, and run the jobs one after another,
 * reporting a failing file and carrying on with the rest. The directory
 * listing is a given sequence of names, paths are file names alone, and
 * decoding and saving are parameters.
 */
module Batch {
  import opened Colour
  import opened Results
  import opened Transform
  import opened Prompts

  /** Python's str.endswith: s is at least as long as suffix and agrees with it character by character at its end. */
  function EndsWith(s: string, suffix: string): (ends: bool)
    ensures ends <==> |suffix| <= |s| && forall k | 0 <= k < |suffix| :: s[|s| - |suffix| + k] == suffix[k]
  {
    |suffix| <= |s| && s[|s| - |suffix|..] == suffix
  }

  /** The suffix the driver filters on: a dot followed by the extension. */
  function ExtensionSuffix(extension: string): string {
    "." + extension
  }

  /** EndsWith agrees with its reference reading: s is some stem followed by the suffix. */
  lemma EndsWithIffSplit(s: string, suffix: string)
    ensures EndsWith(s, suffix) <==> exists stem :: s == stem + suffix
  {
    if EndsWith(s, suffix) {
      var stem := s[..|s| - |suffix|];
      assert s == stem + suffix;
    }
    if exists stem :: s == stem + suffix {
      var stem :| s == stem + suffix;
      assert s[|s| - |suffix|..] == suffix;
    }
  }

  /** The suffix test compares characters exactly: an upper-case extension is not a match. */
  lemma SuffixIsCaseSensitive()
    ensures EndsWith("photo.png", ExtensionSuffix("png"))
    ensures !EndsWith("photo.PNG", ExtensionSuffix("png"))
    ensures !EndsWith("png", ExtensionSuffix("png"))
  {
  }

  /** The list comprehension of script.py:76, keeping the listing's order. */
  function SelectFiles(entries: seq<string>, extension: string): (files: seq<string>)
    ensures |files| <= |entries|
    ensures forall f :: f in files <==> f in entries && EndsWith(f, ExtensionSuffix(extension))
    ensures forall f :: multiset(files)[f] == if EndsWith(f, ExtensionSuffix(extension)) then multiset(entries)[f] else 0
  {
    if entries == [] then []
    else
      var rest := SelectFiles(entries[1..], extension);
      assert entries == [entries[0]] + entries[1..];
      if EndsWith(entries[0], ExtensionSuffix(extension)) then [entries[0]] + rest else rest
  }

  /** xs can be obtained from ys by deleting elements: ys's order is kept in xs. */
  predicate IsSubsequence<T(==)>(xs: seq<T>, ys: seq<T>)
    decreases |ys|
  {
    if xs == [] then true
    else if ys == [] then false
    else (xs[0] == ys[0] && IsSubsequence(xs[1..], ys[1..])) || IsSubsequence(xs, ys[1..])
  }

  /** The selected files appear in the order of the listing. */
  lemma {:induction false} SelectFilesKeepsOrder(entries: seq<string>, extension: string)
    ensures IsSubsequence(SelectFiles(entries, extension), entries)
    decreases |entries|
  {
    if entries != [] {
      SelectFilesKeepsOrder(entries[1..], extension);
      var rest := SelectFiles(entries[1..], extension);
      if EndsWith(entries[0], ExtensionSuffix(extension)) {
        assert ([entries[0]] + rest)[1..] == rest;
      } else {
        IsSubsequenceSkip(rest, entries);
      }
    }
  }

  lemma IsSubsequenceSkip<T>(xs: seq<T>, ys: seq<T>)
    requires ys != [] && IsSubsequence(xs, ys[1..])
    ensures IsSubsequence(xs, ys)
  {
  }

  /** Selecting from a listing in two parts is selecting from each part in turn. */
  lemma {:induction false} SelectFilesAppend(a: seq<string>, b: seq<string>, extension: string)
    ensures SelectFiles(a + b, extension) == SelectFiles(a, extension) + SelectFiles(b, extension)
    decreases |a|
  {
    if a == [] {
      assert a + b == b;
    } else {
      assert (a + b)[1..] == a[1..] + b;
      SelectFilesAppend(a[1..], b, extension);
    }
  }

  /** No name occurs twice, as in a directory listing. */
  predicate NoDuplicates(names: seq<string>) {
    forall i, j | 0 <= i < j < |names| :: names[i] != names[j]
  }

  lemma TailNoDuplicates(names: seq<string>)
    requires names != [] && NoDuplicates(names)
    ensures NoDuplicates(names[1..]) && names[0] !in names[1..]
  {
    forall i, j | 0 <= i < j < |names[1..]| ensures names[1..][i] != names[1..][j] {
      assert names[1..][i] == names[i + 1] && names[1..][j] == names[j + 1];
    }
    forall k | 0 <= k < |names[1..]| ensures names[1..][k] != names[0] {
      assert names[1..][k] == names[k + 1];
    }
  }

  lemma ConsNoDuplicates(name: string, rest: seq<string>)
    requires NoDuplicates(rest) && name !in rest
    ensures NoDuplicates([name] + rest)
  {
    var names := [name] + rest;
    forall i, j | 0 <= i < j < |names| ensures names[i] != names[j] {
      assert names[j] == rest[j - 1];
      if i > 0 {
        assert names[i] == rest[i - 1];
      }
    }
  }

  /** Selecting from a listing without duplicates gives names without duplicates. */
  lemma {:induction false} SelectFilesNoDuplicates(entries: seq<string>, extension: string)
    requires NoDuplicates(entries)
    ensures NoDuplicates(SelectFiles(entries, extension))
    decreases |entries|
  {
    if entries != [] {
      TailNoDuplicates(entries);
      SelectFilesNoDuplicates(entries[1..], extension);
      if EndsWith(entries[0], ExtensionSuffix(extension)) {
        ConsNoDuplicates(entries[0], SelectFiles(entries[1..], extension));
      }
    }
  }

  /** One file's job: the arguments process_image receives (script.py:22, 85). */
  datatype JobSpec = JobSpec(inputPath: string, outputPath: string, background: Rgb, threshold: int,
                             replacement: Rgb, extension: string)

  /** One job per selected file, in listing order, with the output named like the input (script.py:78-85). */
  function PlanJobs(entries: seq<string>, settings: Settings): (jobs: seq<JobSpec>)
    ensures |jobs| == |SelectFiles(entries, settings.extension)|
    ensures forall k | 0 <= k < |jobs| ::
              && jobs[k].inputPath == SelectFiles(entries, settings.extension)[k]
              && jobs[k].outputPath == jobs[k].inputPath
              && EndsWith(jobs[k].inputPath, ExtensionSuffix(settings.extension))
              && jobs[k].background == settings.background
              && jobs[k].threshold == settings.threshold
              && jobs[k].replacement == settings.replacement
              && jobs[k].extension == settings.extension
  {
    var files := SelectFiles(entries, settings.extension);
    seq(|files|, k requires 0 <= k < |files| =>
      JobSpec(files[k], files[k], settings.background, settings.threshold, settings.replacement, settings.extension))
  }

  /**
   * A listing without duplicate names gives jobs with pairwise distinct output
   * paths, so no two jobs write the same file.
   */
  lemma PlanJobsDistinctOutputs(entries: seq<string>, settings: Settings)
    requires NoDuplicates(entries)
    ensures var jobs := PlanJobs(entries, settings);
            forall k, l | 0 <= k < l < |jobs| :: jobs[k].outputPath != jobs[l].outputPath
  {
    SelectFilesNoDuplicates(entries, settings.extension);
  }

  /** Planning a listing in two parts is planning each part in turn. */
  lemma PlanJobsAppend(a: seq<string>, b: seq<string>, settings: Settings)
    ensures PlanJobs(a + b, settings) == PlanJobs(a, settings) + PlanJobs(b, settings)
  {
    SelectFilesAppend(a, b, settings.extension);
    var whole, left, right := PlanJobs(a + b, settings), PlanJobs(a, settings), PlanJobs(b, settings);
    assert |whole| == |left| + |right|;
    forall k | 0 <= k < |whole| ensures whole[k] == (left + right)[k] {
      if k >= |left| {
        assert SelectFiles(a + b, settings.extension)[k] == SelectFiles(b, settings.extension)[k - |left|];
      }
    }
  }

  /** What one file's processing leaves behind: a written image, or a reported error naming the input. */
  datatype Outcome = Written(path: string, image: Image) | Reported(path: string, error: TransformError)

  /**
   * process_image with its catch-all: a decode failure, an image without
   * pixels, or a failed save becomes a report naming the input path;
   * otherwise the transformed grid is written to the output path.
   */
  function RunJob(job: JobSpec, decode: string -> Option<Image>, canSave: string -> bool): (o: Outcome)
    requires IsByteColour(job.replacement)
    ensures o.Written? <==>
              && decode(job.inputPath).Some?
              && Height(decode(job.inputPath).value) > 0 && Width(decode(job.inputPath).value) > 0
              && canSave(job.outputPath)
    ensures o.Written? ==> o.path == job.outputPath
    ensures o.Written? ==>
              Success(o.image) == ProcessImage(decode(job.inputPath).value, job.background, job.threshold, job.replacement)
    ensures o.Reported? ==> o.path == job.inputPath
    ensures o.Reported? && decode(job.inputPath).None? ==> o.error == DecodeFailed
  {
    match decode(job.inputPath)
    case None => Reported(job.inputPath, DecodeFailed)
    case Some(img) =>
      match ProcessImage(img, job.background, job.threshold, job.replacement)
      case Failure(e) => Reported(job.inputPath, e)
      case Success(out) => if canSave(job.outputPath) then Written(job.outputPath, out) else Reported(job.inputPath, EncodeFailed)
  }

  /**
   * The serial loop of script.py:78-86: every job is run once, in order, and
   * the progress count reaches the number of jobs. A failing file does not
   * stop the loop, and each outcome depends only on its own job.
   */
  method RunBatch(jobs: seq<JobSpec>, decode: string -> Option<Image>, canSave: string -> bool)
    returns (outcomes: seq<Outcome>, progress: nat)
    requires forall k | 0 <= k < |jobs| :: IsByteColour(jobs[k].replacement)
    ensures progress == |jobs| && |outcomes| == |jobs|
    ensures forall k | 0 <= k < |jobs| :: outcomes[k] == RunJob(jobs[k], decode, canSave)
  {
    outcomes := [];
    progress := 0;
    while progress < |jobs|
      invariant 0 <= progress <= |jobs|
      invariant |outcomes| == progress
      invariant forall k | 0 <= k < progress :: outcomes[k] == RunJob(jobs[k], decode, canSave)
    {
      var o := RunJob(jobs[progress], decode, canSave);
      outcomes := outcomes + [o];
      progress := progress + 1;
    }
  }

  /**
   * The whole run after the prompts: every selected file gets exactly one
   * outcome, in listing order; it is written under its own name or reported
   * under its own name.
   */
  method Run(entries: seq<string>, settings: Settings, decode: string -> Option<Image>, canSave: string -> bool)
    returns (outcomes: seq<Outcome>)
    requires IsByteColour(settings.replacement)
    ensures |outcomes| == |SelectFiles(entries, settings.extension)|
    ensures forall k | 0 <= k < |outcomes| :: outcomes[k] == RunJob(PlanJobs(entries, settings)[k], decode, canSave)
    ensures forall k | 0 <= k < |outcomes| ::
              outcomes[k].path == SelectFiles(entries, settings.extension)[k]
    ensures forall k | 0 <= k < |outcomes| ::
              outcomes[k].Written? ==>
                && decode(outcomes[k].path).Some?
                && ProcessImage(decode(outcomes[k].path).value, settings.background, settings.threshold, settings.replacement)
                   == Success(outcomes[k].image)
  {
    var jobs := PlanJobs(entries, settings);
    var progress;
    outcomes, progress := RunBatch(jobs, decode, canSave);
  }

  /** Five matching names and two others give five jobs. */
  lemma MixedFolderExample()
    ensures |PlanJobs(["a.png", "b.png", "notes.txt", "c.png", "d.png", "e.jpg", "f.png"],
                      Settings(Rgb(0, 0, 0), 50, Rgb(255, 255, 255), "png"))| == 5
  {
    var suffix := ExtensionSuffix("png");
    assert "a.png"[1..] == suffix;
    assert "b.png"[1..] == suffix;
    assert "c.png"[1..] == suffix;
    assert "d.png"[1..] == suffix;
    assert "f.png"[1..] == suffix;
    assert "notes.txt"[5..] != suffix by { assert "notes.txt"[5..][1] == 't'; }
    assert "e.jpg"[1..] != suffix by { assert "e.jpg"[1..][1] == 'j'; }
  }
}
