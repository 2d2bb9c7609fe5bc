/**
 * The photo part of the proposed-job edit form
 * (web/lib/components/jobs/EditProposedJobForm.tsx): the ids of stored photos marked for
 * deletion, the newly chosen files, the photo URLs shown, and the map coordinates.
 */
module EditProposedJobForm {
  import opened Wrappers

  /** A chosen file, as far as the form is concerned. */
  datatype UploadFile = UploadFile(name: string, size: nat)

  /** `s.filter((_, i) => i !== index)`: the list without the element at `index`, if there is one. */
  function RemoveAt<T>(s: seq<T>, index: int): seq<T> {
    if 0 <= index < |s| then s[..index] + s[index + 1..] else s
  }

  /**
   * Removing drops exactly the element at `index` and keeps the others in order; an
   * index outside the list changes nothing.
   */
  lemma RemoveAtSpec<T>(s: seq<T>, index: int)
    ensures 0 <= index < |s| ==> |RemoveAt(s, index)| == |s| - 1
    ensures 0 <= index < |s| ==> forall i :: 0 <= i < index ==> RemoveAt(s, index)[i] == s[i]
    ensures 0 <= index < |s| ==> forall i :: index <= i < |s| - 1 ==> RemoveAt(s, index)[i] == s[i + 1]
    ensures 0 <= index < |s| ==> multiset(RemoveAt(s, index)) + multiset{s[index]} == multiset(s)
    ensures !(0 <= index < |s|) ==> RemoveAt(s, index) == s
  {
    if 0 <= index < |s| {
      assert s == s[..index] + [s[index]] + s[index + 1..];
    }
  }

  /** Removing a file just registered gives back the list it was added to. */
  lemma RemoveUndoesRegister(prev: seq<UploadFile>, f: UploadFile)
    ensures RemoveAt(prev + [f], |prev|) == prev
  {
    assert (prev + [f])[..|prev|] == prev;
  }

  /** The form values for photos; `None` is a value never set. */
  class PhotoFormState {
    var photoIdsDeleted: Option<seq<string>>
    var photoFiles: Option<seq<UploadFile>>

    constructor ()
      ensures photoIdsDeleted.None? && photoFiles.None?
    {
      photoIdsDeleted := None;
      photoFiles := None;
    }

    /** `removeExistingPhoto(id)`: mark a stored photo for deletion; repeated ids stay repeated. */
    method RemoveExistingPhoto(id: string)
      modifies this`photoIdsDeleted
      ensures photoIdsDeleted == Some(old(photoIdsDeleted).GetOr([]) + [id])
    {
      var prev := photoIdsDeleted.GetOr([]);
      photoIdsDeleted := Some(prev + [id]);
    }

    /** `removeNewPhoto(index)`: copy every chosen file but the one at `index`. */
    method RemoveNewPhoto(index: int)
      modifies this`photoFiles
      ensures photoFiles == Some(RemoveAt(old(photoFiles).GetOr([]), index))
    {
      var prev := photoFiles.GetOr([]);
      var filtered: seq<UploadFile> := [];
      for i := 0 to |prev|
        invariant filtered == RemoveAt(prev[..i], index)
      {
        if i != index {
          if 0 <= index < i {
            assert prev[..i + 1][index + 1..] == prev[index + 1..i] + [prev[i]];
          }
          filtered := filtered + [prev[i]];
        } else {
          assert RemoveAt(prev[..i + 1], index) == prev[..i];
        }
      }
      assert prev[..|prev|] == prev;
      photoFiles := Some(filtered);
    }

    /** `registerPhoto(fileList)`: the files chosen before, then the newly chosen ones. */
    method RegisterPhoto(fileList: Option<seq<UploadFile>>)
      modifies this`photoFiles
      ensures photoFiles == Some(old(photoFiles).GetOr([]) + fileList.GetOr([]))
      ensures |photoFiles.value| == |old(photoFiles).GetOr([])| + |fileList.GetOr([])|
    {
      var combined := photoFiles.GetOr([]) + fileList.GetOr([]);
      var transfer: seq<UploadFile> := [];
      for i := 0 to |combined|
        invariant transfer == combined[..i]
      {
        transfer := transfer + [combined[i]];
      }
      assert combined[..|combined|] == combined;
      photoFiles := Some(transfer);
    }
  }

  /**
   * The form after a session of photo edits: marking is independent of the files,
   * removing the file just registered undoes the registration.
   */
  method RegisterThenRemove(form: PhotoFormState, f: UploadFile)
    modifies form
    ensures form.photoFiles == Some(old(form.photoFiles).GetOr([]))
    ensures form.photoIdsDeleted == old(form.photoIdsDeleted)
  {
    var n := |form.photoFiles.GetOr([])|;
    form.RegisterPhoto(Some([f]));
    form.RemoveNewPhoto(n);
    RemoveUndoesRegister(old(form.photoFiles).GetOr([]), f);
  }

  // ---------------------------------------------------------------- images

  datatype ImageRef = ImageRef(url: string, index: string)

  const PhotosPrefix: string := "/api/proposed-jobs/"

  /** `/api/proposed-jobs/${jobId}/photos/${photoId}` */
  function PhotoUrl(jobId: string, photoId: string): string {
    PhotosPrefix + jobId + "/photos/" + photoId
  }

  /** `fetchImages()` */
  function FetchImages(jobId: string, photoIds: seq<string>): (r: seq<ImageRef>)
    ensures |r| == |photoIds|
    ensures forall i :: 0 <= i < |r| ==> r[i] == ImageRef(PhotoUrl(jobId, photoIds[i]), photoIds[i])
  {
    seq(|photoIds|, i requires 0 <= i < |photoIds| => ImageRef(PhotoUrl(jobId, photoIds[i]), photoIds[i]))
  }

  /** Within one job, different photos get different URLs, and the id can be read back from the URL. */
  lemma PhotoUrlIdentifies(jobId: string, a: string, b: string)
    ensures PhotoUrl(jobId, a)[|PhotosPrefix + jobId + "/photos/"|..] == a
    ensures a != b ==> PhotoUrl(jobId, a) != PhotoUrl(jobId, b)
  {
    var p := PhotosPrefix + jobId + "/photos/";
    assert PhotoUrl(jobId, a) == p + a && PhotoUrl(jobId, b) == p + b;
    assert (p + a)[|p|..] == a && (p + b)[|p|..] == b;
  }

  // ---------------------------------------------------------------- coordinates

  /**
   * `getCoordinations()`: the pair when the job has coordinates and both are truthy; a
   * missing entry or a zero yields `null`.
   */
  function GetCoordinations(coordinations: Option<seq<real>>): (r: Option<(real, real)>)
    ensures r.Some? <==> coordinations.Some? && |coordinations.value| >= 2
                         && coordinations.value[0] != 0.0 && coordinations.value[1] != 0.0
    ensures r.Some? ==> r.value == (coordinations.value[0], coordinations.value[1])
  {
    match coordinations
    case None => None
    case Some(c) =>
      if |c| >= 2 && c[0] != 0.0 && c[1] != 0.0 then Some((c[0], c[1])) else None
  }

  /** A stored pair is shown again exactly when neither coordinate is zero. */
  lemma CoordinationsRoundTrip(lat: real, lng: real)
    ensures GetCoordinations(Some([lat, lng])) == Some((lat, lng)) <==> lat != 0.0 && lng != 0.0
    ensures GetCoordinations(Some([lat, lng])).None? <==> lat == 0.0 || lng == 0.0
  {
  }
}
