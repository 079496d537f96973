/** The upload panel's `processFile` (src/components/admin/VideoUploader.tsx):
    the MIME check, the title derived from the file name, the duration default
    for images, and the simulated progress counter driven by a 200 ms interval
    and closed by a 2.5 s timeout. The timers fire as explicit method calls and
    the probed video duration is a parameter. */
module Uploader {
  import opened Types

  predicate StartsWith(s: string, prefix: string)
  {
    |prefix| <= |s| && s[..|prefix|] == prefix
  }

  /** A `video/` type is a video, otherwise an `image/` type is an image; anything else is refused. */
  function Classify(mimeType: string): (k: Option<MediaKind>)
    ensures k == Some(VideoKind) <==> StartsWith(mimeType, "video/")
    ensures k == Some(ImageKind) <==> !StartsWith(mimeType, "video/") && StartsWith(mimeType, "image/")
    ensures k == None <==> !StartsWith(mimeType, "video/") && !StartsWith(mimeType, "image/")
  {
    if StartsWith(mimeType, "video/") then Some(VideoKind)
    else if StartsWith(mimeType, "image/") then Some(ImageKind)
    else None
  }

  /** The two prefixes exclude each other, so the order of the tests does not matter. */
  lemma PrefixesDisjoint(mimeType: string)
    ensures !(StartsWith(mimeType, "video/") && StartsWith(mimeType, "image/"))
  {
    if StartsWith(mimeType, "video/") {
      assert mimeType[0] == mimeType[..6][0] == 'v';
    }
  }

  /** Whether the pattern `\.[^/.]+$` matches `s` from index `i`: a dot, then
      one or more characters up to the end none of which is `/` or `.`. */
  predicate ExtensionAt(s: string, i: int)
  {
    0 <= i < |s| - 1 && s[i] == '.' && forall j :: i < j < |s| ==> s[j] != '/' && s[j] != '.'
  }

  /** The pattern matches at one place at most. */
  lemma ExtensionUnique(s: string, i: int)
    requires ExtensionAt(s, i)
    ensures forall k :: k != i ==> !ExtensionAt(s, k)
  {
    forall k | k != i ensures !ExtensionAt(s, k) {
      if i < k < |s| {
        assert s[k] != '.';
      } else if 0 <= k < i {
        assert s[i] == '.';
      }
    }
  }

  /** Scans leftwards from `k` (everything at or after `k` is neither `/` nor
      `.`) for the start of a match. */
  function ScanBack(s: string, k: nat): (r: Option<nat>)
    requires k <= |s|
    requires forall j :: k <= j < |s| ==> s[j] != '/' && s[j] != '.'
    ensures r.Some? ==> ExtensionAt(s, r.value)
    ensures r.None? ==> forall i :: 0 <= i < |s| ==> !ExtensionAt(s, i)
    decreases k
  {
    if k == 0 then None
    else if s[k - 1] == '.' then
      if k - 1 < |s| - 1 then Some(k - 1)
      else
        assert forall i :: 0 <= i < |s| ==> !ExtensionAt(s, i) by {
          forall i | 0 <= i < |s| ensures !ExtensionAt(s, i) {
            if i < k - 1 { assert s[k - 1] == '.'; }
          }
        }
        None
    else if s[k - 1] == '/' then
      assert forall i :: 0 <= i < |s| ==> !ExtensionAt(s, i) by {
        forall i | 0 <= i < |s| ensures !ExtensionAt(s, i) {
          if i < k - 1 { assert s[k - 1] == '/'; }
        }
      }
      None
    else ScanBack(s, k - 1)
  }

  /** Where the pattern matches in `s`, if it does. */
  function ExtensionStart(s: string): (r: Option<nat>)
    ensures r.Some? ==> ExtensionAt(s, r.value)
    ensures r.None? ==> forall i :: 0 <= i < |s| ==> !ExtensionAt(s, i)
  {
    ScanBack(s, |s|)
  }

  /** `name.replace(/\.[^/.]+$/, '')`. */
  function StripExtension(name: string): (t: string)
    ensures |t| <= |name| && name[..|t|] == t
  {
    match ExtensionStart(name)
    case Some(i) => name[..i]
    case None => name
  }

  /** The title is the name cut at the match, if there is one, and the whole
      name otherwise; only the last extension goes. */
  lemma StripExtensionCharacterised(name: string)
    ensures (exists i :: ExtensionAt(name, i)) <==> StripExtension(name) != name
    ensures forall i :: ExtensionAt(name, i) ==> StripExtension(name) == name[..i]
    ensures (forall i :: !ExtensionAt(name, i)) ==> StripExtension(name) == name
  {
    var r := ExtensionStart(name);
    if r.Some? {
      assert |name[..r.value]| < |name|;
      ExtensionUnique(name, r.value);
    }
  }

  /** Only the last of several extensions is removed. */
  lemma StripLastExtensionOnly()
    ensures StripExtension("a.b.mp4") == "a.b"
  {
    var s := "a.b.mp4";
    assert ExtensionAt(s, 3);
    StripExtensionCharacterised(s);
  }

  /** A name without a dot, ending in a dot, or with a `/` after its last dot,
      keeps its full name as title. */
  lemma StripKeepsName()
    ensures StripExtension("clip") == "clip"
    ensures StripExtension("clip.") == "clip."
    ensures StripExtension("a.b/c") == "a.b/c"
  {
    StripExtensionCharacterised("clip");
    StripExtensionCharacterised("clip.");
    StripExtensionCharacterised("a.b/c");
    assert forall i :: !ExtensionAt("clip", i);
    assert forall i :: !ExtensionAt("clip.", i);
    assert forall i :: !ExtensionAt("a.b/c", i) by {
      forall i ensures !ExtensionAt("a.b/c", i) {
        if 0 <= i < 4 && "a.b/c"[i] == '.' { assert "a.b/c"[3] == '/'; }
      }
    }
  }

  /** A name that is only an extension yields an empty title. */
  lemma DotFileEmptyTitle()
    ensures StripExtension(".mp4") == ""
  {
    assert ExtensionAt(".mp4", 0);
    StripExtensionCharacterised(".mp4");
  }

  /** What `onUpload` receives. */
  datatype Upload = Upload(title: string, duration: real, size: int, file: MediaFile, kind: MediaKind)

  /** `processFile`'s report for a file, given the duration the metadata probe
      would read for a video. */
  function Describe(file: MediaFile, probedDuration: real): (u: Option<Upload>)
    ensures u.None? <==> Classify(file.mimeType).None?
    ensures u.Some? ==> u.value.file == file && u.value.size == file.size
    ensures u.Some? ==> u.value.title == StripExtension(file.name)
    ensures u.Some? ==> (u.value.kind == VideoKind <==> StartsWith(file.mimeType, "video/"))
    ensures u.Some? ==> u.value.duration == if u.value.kind == VideoKind then probedDuration else 0.0
  {
    match Classify(file.mimeType)
    case None => None
    case Some(k) =>
      Some(Upload(StripExtension(file.name), if k == VideoKind then probedDuration else 0.0, file.size, file, k))
  }

  /** The interval's updater: up by 10 below 100, then held at 100. */
  function Tick(p: int): (r: int)
    ensures p >= 100 ==> r == 100
    ensures p < 100 ==> r == p + 10
  {
    if p >= 100 then 100 else p + 10
  }

  /** The progress after `n` interval firings from 0. */
  function ProgressAfter(n: nat): (p: int)
    ensures ProgressValue(p)
  {
    if n == 0 then 0
    else
      TickKeepsProgress(ProgressAfter(n - 1));
      Tick(ProgressAfter(n - 1))
  }

  /** From 0 the counter reads ten per firing until it is capped at 100. */
  lemma {:induction false} ProgressAfterClosedForm(n: nat)
    ensures ProgressAfter(n) == if 10 * n >= 100 then 100 else 10 * n
  {
    if n > 0 {
      ProgressAfterClosedForm(n - 1);
    }
  }

  /** The counter after `n` firings, computed firing by firing. */
  method SimulateProgress(n: nat) returns (p: int)
    ensures p == if 10 * n >= 100 then 100 else 10 * n
  {
    p := 0;
    var k := 0;
    while k < n
      invariant k <= n
      invariant p == ProgressAfter(k)
    {
      p := Tick(p);
      k := k + 1;
    }
    ProgressAfterClosedForm(n);
  }

  /** A multiple of ten between 0 and 100. */
  predicate ProgressValue(p: int)
  {
    0 <= p <= 100 && p % 10 == 0
  }

  /** A firing keeps the counter a multiple of ten within 0..100. */
  lemma TickKeepsProgress(p: int)
    requires ProgressValue(p)
    ensures ProgressValue(Tick(p))
  {
  }

  class VideoUploader {
    var isUploading: bool
    var uploadProgress: int
    var intervalActive: bool
    var pending: Option<MediaFile>
    var alerts: nat
    var uploads: seq<Upload>

    ghost predicate Valid()
      reads this
    {
      && ProgressValue(uploadProgress)
      && (intervalActive ==> isUploading)
      && (pending.Some? ==> Classify(pending.value.mimeType).Some?)
    }

    constructor ()
      ensures Valid()
      ensures !isUploading && uploadProgress == 0 && !intervalActive && pending == None
      ensures alerts == 0 && uploads == []
    {
      isUploading := false;
      uploadProgress := 0;
      intervalActive := false;
      pending := None;
      alerts := 0;
      uploads := [];
    }

    /** The synchronous part of `processFile`: a refused file raises an alert
        and nothing else; an accepted one starts the upload at 0 with the
        interval running. */
    method ProcessFile(file: MediaFile) returns (accepted: bool)
      requires Valid()
      modifies this
      ensures Valid()
      ensures accepted <==> Classify(file.mimeType).Some?
      ensures !accepted ==>
                && alerts == old(alerts) + 1 && isUploading == old(isUploading)
                && uploadProgress == old(uploadProgress) && intervalActive == old(intervalActive)
                && pending == old(pending)
      ensures accepted ==>
                && isUploading && uploadProgress == 0 && intervalActive && pending == Some(file)
                && alerts == old(alerts)
      ensures uploads == old(uploads)
    {
      if Classify(file.mimeType).None? {
        alerts := alerts + 1;
        return false;
      }
      isUploading := true;
      uploadProgress := 0;
      intervalActive := true;
      pending := Some(file);
      return true;
    }

    /** One firing of the interval; at 100 it clears itself. */
    method IntervalFires()
      requires Valid()
      modifies this
      ensures Valid()
      ensures uploadProgress == if old(intervalActive) then Tick(old(uploadProgress)) else old(uploadProgress)
      ensures intervalActive == (old(intervalActive) && old(uploadProgress) < 100)
      ensures isUploading == old(isUploading) && pending == old(pending)
      ensures alerts == old(alerts) && uploads == old(uploads)
    {
      if !intervalActive {
        return;
      }
      if uploadProgress >= 100 {
        intervalActive := false;
        uploadProgress := 100;
      } else {
        uploadProgress := uploadProgress + 10;
      }
    }

    /** The 2.5 s timeout: the interval is cleared, the upload is reported and
        the panel resets. */
    method TimeoutFires(probedDuration: real)
      requires Valid()
      modifies this
      ensures Valid()
      ensures old(pending).None? ==> uploads == old(uploads) && uploadProgress == old(uploadProgress)
                                     && isUploading == old(isUploading) && intervalActive == old(intervalActive)
      ensures old(pending).Some? ==>
                && uploads == old(uploads) + [Describe(old(pending).value, probedDuration).value]
                && !isUploading && uploadProgress == 0 && !intervalActive
      ensures pending == None && alerts == old(alerts)
    {
      if pending.None? {
        return;
      }
      var file := pending.value;
      intervalActive := false;
      uploadProgress := 100;
      uploads := uploads + [Describe(file, probedDuration).value];
      isUploading := false;
      uploadProgress := 0;
      pending := None;
    }
  }
}
