/**
  Image compression by re-encoding: the image is encoded as WebP, as JPEG
  and in its own format, the encoders that fail are skipped, and the
  smallest result is kept unless it is not smaller than the original. The
  encoders are a parameter: `encode(mime)` is the blob the canvas produced
  for that type at the chosen quality, or None when it failed.
 */
module CompressImage {
  import opened Common

  /** A file or an encoded blob: its MIME type and its size in bytes. */
  datatype Blob = Blob(mime: string, size: nat)

  /** `file.type || 'image/png'`. */
  function OriginalMime(fileType: string): string {
    if fileType == "" then "image/png" else fileType
  }

  /** The formats tried, in order. */
  function Formats(fileType: string): seq<string> {
    ["image/webp", "image/jpeg", OriginalMime(fileType)]
  }

  /** The blobs the encoders produced, in the order tried. */
  function Successes(mimes: seq<string>, encode: string -> Option<Blob>): seq<Blob> {
    if |mimes| == 0 then []
    else
      var r := encode(Last(mimes));
      Successes(mimes[..|mimes| - 1], encode) + if r.Some? then [r.value] else []
  }

  /** The index `candidates.reduce((a, b) => (a.size <= b.size ? a : b))`
      ends on: the first of the smallest. */
  function SmallestIndex(candidates: seq<Blob>): (i: nat)
    requires |candidates| > 0
    ensures i < |candidates|
    ensures forall j :: 0 <= j < |candidates| ==> candidates[i].size <= candidates[j].size
    ensures forall j :: 0 <= j < i ==> candidates[j].size > candidates[i].size
  {
    if |candidates| == 1 then 0
    else
      var n := |candidates| - 1;
      var a := SmallestIndex(candidates[..n]);
      assert candidates[..n][a] == candidates[a];
      assert forall j :: 0 <= j < n ==> candidates[..n][j] == candidates[j];
      if candidates[a].size <= candidates[n].size then a else n
  }

  lemma SuccessesStep(mimes: seq<string>, k: nat, encode: string -> Option<Blob>)
    requires k < |mimes|
    ensures Successes(mimes[..k + 1], encode) ==
              Successes(mimes[..k], encode) + if encode(mimes[k]).Some? then [encode(mimes[k]).value] else []
  {
    assert mimes[..k + 1][..k] == mimes[..k];
  }

  /** Extending the prefix by one candidate: it wins only when strictly
      smaller. */
  lemma SmallestIndexStep(candidates: seq<Blob>, k: nat)
    requires 1 <= k < |candidates|
    ensures var a := SmallestIndex(candidates[..k]);
            SmallestIndex(candidates[..k + 1]) == if candidates[a].size <= candidates[k].size then a else k
  {
    assert candidates[..k + 1][..k] == candidates[..k];
  }

  /** The result for a given list of candidates. */
  function Choose(file: Blob, candidates: seq<Blob>): Blob {
    if |candidates| == 0 then file
    else
      var smallest := candidates[SmallestIndex(candidates)];
      if smallest.size < file.size then smallest else file
  }

  /** `compressImage`: the encoding loop, then the choice. */
  method Compress(file: Blob, encode: string -> Option<Blob>) returns (result: Blob)
    ensures result == Choose(file, Successes(Formats(file.mime), encode))
  {
    var mimes := Formats(file.mime);
    var candidates: seq<Blob> := [];
    for k := 0 to |mimes|
      invariant candidates == Successes(mimes[..k], encode)
    {
      SuccessesStep(mimes, k, encode);
      var b := encode(mimes[k]);
      if b.Some? {
        candidates := candidates + [b.value];
      }
    }
    assert mimes[..|mimes|] == mimes;
    if |candidates| == 0 {
      return file;
    }
    var smallest := candidates[0];
    ghost var at := 0;
    for k := 1 to |candidates|
      invariant at == SmallestIndex(candidates[..k]) && smallest == candidates[at]
    {
      SmallestIndexStep(candidates, k);
      if !(smallest.size <= candidates[k].size) {
        smallest := candidates[k];
        at := k;
      }
    }
    assert candidates[..|candidates|] == candidates;
    result := if smallest.size < file.size then smallest else file;
  }

  // ---------------------------------------------------------------------------
  // Properties
  // ---------------------------------------------------------------------------

  /** The candidates are the successful encodings in the order WebP, JPEG,
      original type, where a missing type stands for PNG. */
  lemma CandidateOrder(fileType: string, encode: string -> Option<Blob>)
    ensures Successes(Formats(fileType), encode) ==
              (if encode("image/webp").Some? then [encode("image/webp").value] else []) +
              (if encode("image/jpeg").Some? then [encode("image/jpeg").value] else []) +
              (if encode(OriginalMime(fileType)).Some? then [encode(OriginalMime(fileType)).value] else [])
    ensures OriginalMime(fileType) == (if fileType == "" then "image/png" else fileType)
  {
    var f := Formats(fileType);
    var w, j, o := encode("image/webp"), encode("image/jpeg"), encode(OriginalMime(fileType));
    assert f[..2] == ["image/webp", "image/jpeg"];
    assert f[..2][..1] == ["image/webp"];
    assert ["image/webp"][..0] == [];
    assert Successes(["image/webp"], encode) == [] + if w.Some? then [w.value] else [];
    assert Successes(f[..2], encode) == Successes(["image/webp"], encode) + if j.Some? then [j.value] else [];
    assert Successes(f, encode) == Successes(f[..2], encode) + if o.Some? then [o.value] else [];
  }

  /** The result is never larger than the original; it is the original or
      one of the candidates; with no candidates it is the original. */
  lemma NeverLarger(file: Blob, candidates: seq<Blob>)
    ensures Choose(file, candidates).size <= file.size
    ensures Choose(file, candidates) == file || Choose(file, candidates) in candidates
    ensures |candidates| == 0 ==> Choose(file, candidates) == file
  {
  }

  /** If some candidate is strictly smaller than the original, the result is
      the first candidate of minimum size; otherwise it is the original. */
  lemma SmallestWins(file: Blob, candidates: seq<Blob>)
    ensures (exists j :: 0 <= j < |candidates| && candidates[j].size < file.size) ==>
              exists i :: 0 <= i < |candidates| && Choose(file, candidates) == candidates[i] &&
                (forall j :: 0 <= j < |candidates| ==> candidates[i].size <= candidates[j].size) &&
                (forall j :: 0 <= j < i ==> candidates[j].size > candidates[i].size)
    ensures (forall j :: 0 <= j < |candidates| ==> candidates[j].size >= file.size) ==>
              Choose(file, candidates) == file
  {
    if exists j :: 0 <= j < |candidates| && candidates[j].size < file.size {
      var i := SmallestIndex(candidates);
      assert Choose(file, candidates) == candidates[i];
    }
  }
}
