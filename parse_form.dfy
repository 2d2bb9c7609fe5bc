/**
 * The upload rules of `parseFormWithImages` (web/lib/api/parse-form.ts): the size
 * limits handed to the multipart parser, the per-request file-name generator with its
 * `count`, the image-only filter, and the helpers `getJson` and `getPhotoPath`.
 * The multipart parser itself, `mime.getExtension` and `JSON.parse` are parameters.
 */
module ParseForm {
  import opened Wrappers
  import opened Seqs

  // ---------------------------------------------------------------- getJson, getPhotoPath

  /** A form field as the parser delivers it: missing, one value, or a list of values. */
  datatype FieldValue = Absent | Single(text: string) | Many(items: seq<string>)

  /**
   * `getJson(fields.jsonData)`: parse the first value of a list, or the value itself.
   * `parse` is `JSON.parse`, `None` standing for a thrown SyntaxError. A missing field or
   * an empty list hands `undefined` to `JSON.parse`, which throws; the error is caught
   * and logged, and the result is `undefined`.
   */
  function GetJson<J>(field: FieldValue, parse: string -> Option<J>): (r: Option<J>)
    ensures field.Absent? ==> r == None
    ensures field.Many? && field.items == [] ==> r == None
  {
    match field
    case Absent => None
    case Single(text) => parse(text)
    case Many(items) => if items == [] then None else parse(items[0])
  }

  /** Only the first value of a list is read, and a parse failure is swallowed, never raised. */
  lemma GetJsonFirstOnly<J>(first: string, rest: seq<string>, parse: string -> Option<J>)
    ensures GetJson(Many([first] + rest), parse) == GetJson(Single(first), parse) == parse(first)
  {
  }

  datatype File = File(filepath: string, mimetype: Option<string>)

  datatype FileField = OneFile(file: File) | FileList(files: seq<File>)

  /**
   * `getPhotoPath(files.photoFile)`: the path of the first file of a list, or of the single
   * file. An empty list makes `filesPhotoFile[0].filepath` throw; that is `None` here.
   */
  function GetPhotoPath(f: FileField): (r: Option<string>)
    ensures f.OneFile? ==> r == Some(f.file.filepath)
    ensures f.FileList? ==> (r.Some? <==> f.files != [])
    ensures f.FileList? && f.files != [] ==> r == Some(f.files[0].filepath)
  {
    match f
    case OneFile(file) => Some(file.filepath)
    case FileList(files) => if files == [] then None else Some(files[0].filepath)
  }

  // ---------------------------------------------------------------- limits

  /** `maxFileSize`: 10 MiB per file. */
  const MaxFileSize: int := 1024 * 1024 * 10

  /** `maxTotalFileSize`: 10 MiB for each file allowed. */
  function MaxTotalFileSize(maxFiles: int): int {
    MaxFileSize * maxFiles
  }

  function Sum(sizes: seq<nat>): nat {
    if sizes == [] then 0 else sizes[0] + Sum(sizes[1..])
  }

  /** The three limits the parser enforces on one request. */
  predicate WithinLimits(sizes: seq<nat>, maxFiles: int) {
    && |sizes| <= maxFiles
    && (forall i :: 0 <= i < |sizes| ==> sizes[i] <= MaxFileSize)
    && Sum(sizes) <= MaxTotalFileSize(maxFiles)
  }

  /**
   * The total limit never rejects a request the two other limits accept: at most
   * `maxFiles` files of at most 10 MiB each add up to at most 10 MiB × `maxFiles`.
   */
  lemma {:induction false} TotalLimitImplied(sizes: seq<nat>, maxFiles: int)
    requires |sizes| <= maxFiles
    requires forall i :: 0 <= i < |sizes| ==> sizes[i] <= MaxFileSize
    ensures Sum(sizes) <= MaxTotalFileSize(maxFiles)
    ensures WithinLimits(sizes, maxFiles)
  {
    if sizes != [] {
      TotalLimitImplied(sizes[1..], maxFiles - 1);
    }
  }

  // ---------------------------------------------------------------- file names

  /** `${n}` for a natural number: its decimal digits, most significant first. */
  function DecimalString(n: nat): (s: string)
    ensures |s| > 0
    ensures forall i :: 0 <= i < |s| ==> '0' <= s[i] <= '9'
  {
    if n < 10 then [('0' as int + n) as char]
    else DecimalString(n / 10) + [('0' as int + n % 10) as char]
  }

  /** The number a string of decimal digits denotes. */
  function DecimalValue(s: string): nat
    requires forall i :: 0 <= i < |s| ==> '0' <= s[i] <= '9'
  {
    if s == [] then 0
    else 10 * DecimalValue(s[..|s| - 1]) + (s[|s| - 1] as int - '0' as int)
  }

  lemma {:induction false} DecimalRoundTrip(n: nat)
    ensures DecimalValue(DecimalString(n)) == n
  {
    if n >= 10 {
      DecimalRoundTrip(n / 10);
      var s := DecimalString(n);
      assert s[..|s| - 1] == DecimalString(n / 10);
    }
  }

  /** The extension: `mime.getExtension(part.mimetype || '') || 'unknown'`. */
  function Extension(mimetype: Option<string>, getExtension: string -> Option<string>): (ext: string)
    ensures ext != ""
    ensures getExtension(mimetype.GetOr("")).None? ==> ext == "unknown"
    ensures getExtension(mimetype.GetOr("")).Some? && getExtension(mimetype.GetOr("")).value != "" ==>
      ext == getExtension(mimetype.GetOr("")).value
  {
    match getExtension(mimetype.GetOr(""))
    case Some(e) => if e == "" then "unknown" else e
    case None => "unknown"
  }

  /** `${nameOfImage}-${count}.${ext}` */
  function IndexedName(nameOfImage: string, count: nat, ext: string): string {
    nameOfImage + "-" + DecimalString(count) + "." + ext
  }

  /** `${nameOfImage}.${ext}` */
  function PlainName(nameOfImage: string, ext: string): string {
    nameOfImage + "." + ext
  }

  /** In `a + "." + x` with `a` all digits, the first `.` sits right after `a`. */
  lemma FirstDot(a: string, x: string)
    requires forall i :: 0 <= i < |a| ==> '0' <= a[i] <= '9'
    ensures (a + "." + x)[|a|] == '.'
    ensures forall i :: 0 <= i < |a| ==> (a + "." + x)[i] != '.'
  {
  }

  /** Digit strings that are each followed by a `.` in equal strings are equal. */
  lemma DigitsBeforeDot(a: string, x: string, b: string, y: string)
    requires forall i :: 0 <= i < |a| ==> '0' <= a[i] <= '9'
    requires forall i :: 0 <= i < |b| ==> '0' <= b[i] <= '9'
    requires a + "." + x == b + "." + y
    ensures a == b
  {
    FirstDot(a, x);
    FirstDot(b, y);
    assert |a| == |b|;
    assert a == (a + "." + x)[..|a|];
    assert b == (b + "." + y)[..|b|];
  }

  /**
   * Names generated with different counts differ, whatever the extensions: with
   * `maxFiles > 1` the files of one request never overwrite one another.
   */
  lemma IndexedNamesDistinct(nameOfImage: string, i: nat, j: nat, e1: string, e2: string)
    requires i != j
    ensures IndexedName(nameOfImage, i, e1) != IndexedName(nameOfImage, j, e2)
  {
    if IndexedName(nameOfImage, i, e1) == IndexedName(nameOfImage, j, e2) {
      var p := nameOfImage + "-";
      var di, dj := DecimalString(i), DecimalString(j);
      assert IndexedName(nameOfImage, i, e1) == p + (di + "." + e1);
      assert IndexedName(nameOfImage, j, e2) == p + (dj + "." + e2);
      assert di + "." + e1 == dj + "." + e2 by {
        var L, R := p + (di + "." + e1), p + (dj + "." + e2);
        assert L[|p|..] == di + "." + e1 && R[|p|..] == dj + "." + e2;
      }
      DigitsBeforeDot(di, e1, dj, e2);
      DecimalRoundTrip(i);
      DecimalRoundTrip(j);
    }
  }

  /**
   * The `filename` callback of one `parseFormWithImages` call together with the `count`
   * it captures: a fresh namer per request, starting at 0.
   */
  class UploadNamer {
    const nameOfImage: string
    const maxFiles: int
    var count: nat

    constructor (nameOfImage: string, maxFiles: int)
      ensures this.nameOfImage == nameOfImage && this.maxFiles == maxFiles
      ensures count == 0
    {
      this.nameOfImage := nameOfImage;
      this.maxFiles := maxFiles;
      count := 0;
    }

    /**
     * `filename(_name, _ext, part)`: with more than one file allowed, the next indexed
     * name, and `count` goes up by one; otherwise the plain name, and `count` stays.
     */
    method Filename(mimetype: Option<string>, getExtension: string -> Option<string>) returns (filename: string)
      modifies this`count
      ensures maxFiles > 1 ==> filename == IndexedName(nameOfImage, old(count), Extension(mimetype, getExtension))
      ensures maxFiles > 1 ==> count == old(count) + 1
      ensures maxFiles <= 1 ==> filename == PlainName(nameOfImage, Extension(mimetype, getExtension))
      ensures maxFiles <= 1 ==> count == old(count)
    {
      filename := "";
      if maxFiles > 1 {
        filename := nameOfImage + "-" + DecimalString(count) + "." + Extension(mimetype, getExtension);
        count := count + 1;
      } else {
        filename := nameOfImage + "." + Extension(mimetype, getExtension);
      }
    }
  }

  // ---------------------------------------------------------------- filter

  /**
   * `filter(part)`: a part is kept exactly when its media type contains `image`; a part
   * without one is refused. Refusing also rejects the request's promise.
   */
  function AcceptsPart(mimetype: Option<string>): (accept: bool)
    ensures mimetype.None? ==> !accept
    ensures mimetype.Some? ==> (accept <==> Includes(mimetype.value, "image"))
  {
    match mimetype
    case None => false
    case Some(m) => Includes(m, "image")
  }

  datatype Settled = Resolved | Rejected

  /**
   * How the promise of `parseFormWithImages` settles for a request whose parts carry
   * `mimetypes`: the filter rejects it at the first refused part, and the parser's own
   * error (`parseError`) rejects it too; otherwise it resolves.
   */
  function Settle(mimetypes: seq<Option<string>>, parseError: bool): Settled {
    if mimetypes == [] then (if parseError then Rejected else Resolved)
    else if !AcceptsPart(mimetypes[0]) then Rejected
    else Settle(mimetypes[1..], parseError)
  }

  /** One part that is not an image fails the whole upload, whatever the other parts are. */
  lemma {:induction false} SettleSpec(mimetypes: seq<Option<string>>, parseError: bool)
    ensures Settle(mimetypes, parseError) == Resolved <==>
      !parseError && forall i :: 0 <= i < |mimetypes| ==> AcceptsPart(mimetypes[i])
  {
    if mimetypes != [] {
      SettleSpec(mimetypes[1..], parseError);
      assert forall i :: 1 <= i < |mimetypes| ==> mimetypes[i] == mimetypes[1..][i - 1];
    }
  }
}
