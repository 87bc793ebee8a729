/**
  Upload admission for `POST /photo/new`: multer's file filter, its size
  limit and the disk storage's file-name generator.  The file write itself
  is not modelled; the clock and the random number are parameters.
 */
module Upload {

  import opened Wrappers

  /** The MIME types `fileFilter` lets through. */
  const AllowedTypes: seq<string> := ["image/jpeg", "image/png", "image/gif", "image/jpg"]

  /** multer's `limits.fileSize`: 5 MiB. */
  const MaxFileSize: nat := 5 * 1024 * 1024

  /** The only multipart field `upload.single` accepts a file from. */
  const PhotoField: string := "photo"

  /** One file of a multipart request, as multer describes it. */
  datatype FilePart = FilePart(fieldname: string, originalname: string, mimetype: string, size: nat)

  /** Why multer refused a file; each reaches Express's error handler with this message. */
  datatype Rejection = UnexpectedField | InvalidFileType | FileTooLarge
  {
    function Message(): string {
      match this
      case UnexpectedField => "Unexpected field"
      case InvalidFileType => "Invalid file type. Only JPEG, PNG and GIF are allowed."
      case FileTooLarge => "File too large"
    }
  }

  datatype Admission = Admitted(filename: string) | Rejected(reason: Rejection)

  /**
    The file part `upload.single` goes on to examine, if any.  multer skips a
    part whose file name is empty, as a browser sends for an empty file
    input, so such a request reaches the route as one without a file.
   */
  function Received(file: Option<FilePart>): (r: Option<FilePart>)
    ensures r.Some? <==> file.Some? && file.value.originalname != ""
    ensures r.Some? ==> r == file
  {
    if file.Some? && file.value.originalname == "" then None else file
  }

  /** `allowedTypes.includes(file.mimetype)`. */
  predicate FileFilter(mimetype: string) {
    mimetype in AllowedTypes
  }

  // ---- decimal rendering of the clock and of the random integer ----

  predicate IsDigit(c: char) { '0' <= c <= '9' }

  /** How JavaScript prints a non-negative integer: decimal digits, no leading zero. */
  function Decimal(n: nat): (s: string)
    ensures s != [] && forall i :: 0 <= i < |s| ==> IsDigit(s[i])
    ensures |s| > 1 ==> s[0] != '0'
  {
    if n < 10 then [('0' as int + n) as char]
    else Decimal(n / 10) + [('0' as int + n % 10) as char]
  }

  function DigitValue(c: char): (d: nat)
    requires IsDigit(c)
    ensures d < 10
  {
    c as int - '0' as int
  }

  function ParseDecimal(s: string): nat
    requires forall i :: 0 <= i < |s| ==> IsDigit(s[i])
  {
    if s == [] then 0
    else ParseDecimal(s[..|s| - 1]) * 10 + DigitValue(s[|s| - 1])
  }

  lemma {:induction false} ParseDecimalRoundTrip(n: nat)
    ensures ParseDecimal(Decimal(n)) == n
  {
    if n >= 10 {
      var s := Decimal(n);
      assert s[..|s| - 1] == Decimal(n / 10);
      ParseDecimalRoundTrip(n / 10);
    }
  }

  lemma DecimalInjective(a: nat, b: nat)
    requires Decimal(a) == Decimal(b)
    ensures a == b
  {
    ParseDecimalRoundTrip(a);
    ParseDecimalRoundTrip(b);
  }

  // ---- path.extname ----

  /** The position of the last occurrence of `c` in `s`. */
  function LastIndexOf(s: string, c: char): (r: Option<nat>)
    ensures r.Some? ==> r.value < |s| && s[r.value] == c && forall j :: r.value < j < |s| ==> s[j] != c
    ensures r.None? ==> forall j :: 0 <= j < |s| ==> s[j] != c
  {
    if s == [] then None
    else if s[|s| - 1] == c then Some(|s| - 1)
    else LastIndexOf(s[..|s| - 1], c)
  }

  function TrimTrailingSlashes(p: string): (r: string)
    ensures |r| <= |p| && r == p[..|r|]
    ensures r != [] ==> r[|r| - 1] != '/'
  {
    if p != [] && p[|p| - 1] == '/' then TrimTrailingSlashes(p[..|p| - 1]) else p
  }

  /** The last path segment, trailing slashes ignored. */
  function Basename(p: string): (b: string)
    ensures forall i :: 0 <= i < |b| ==> b[i] != '/'
  {
    var q := TrimTrailingSlashes(p);
    match LastIndexOf(q, '/')
    case None => q
    case Some(k) => q[k + 1..]
  }

  /**
    `path.extname`: the last segment from its last '.' on, or "" when the
    segment has no '.', starts with its only leading '.', or is "..".
   */
  function Extname(p: string): (ext: string)
    ensures ext == [] || ext[0] == '.'
    ensures forall i :: 1 <= i < |ext| ==> ext[i] != '.' && ext[i] != '/'
  {
    var b := Basename(p);
    match LastIndexOf(b, '.')
    case None => ""
    case Some(k) => if k == 0 || b == ".." then "" else b[k..]
  }

  /** A plain file name `stem.x` has extension `.x`. */
  lemma ExtnameOfFileName(stem: string, x: string)
    requires stem != [] && x != []
    requires forall i :: 0 <= i < |stem| ==> stem[i] != '/'
    requires forall i :: 0 <= i < |x| ==> x[i] != '/' && x[i] != '.'
    ensures Extname(stem + "." + x) == "." + x
  {
    var p := stem + "." + x;
    assert p[|p| - 1] == x[|x| - 1];
    assert TrimTrailingSlashes(p) == p;
    assert LastIndexOf(p, '/').None?;
    assert p[|stem|] == '.';
    forall j | |stem| < j < |p| ensures p[j] != '.' {
      assert p[j] == x[j - |stem| - 1];
    }
    assert LastIndexOf(p, '.') == Some(|stem|);
    assert p[|stem|..] == "." + x;
  }

  /** The disk storage's `filename`: `Date.now() + '-' + Math.round(Math.random() * 1E9) + extname(originalname)`. */
  function StoredName(millis: nat, rand: nat, originalname: string): string {
    Decimal(millis) + ("-" + (Decimal(rand) + Extname(originalname)))
  }

  /** The splitting point of a string made of digits followed by a different character. */
  lemma DigitsPrefixUnique(a: string, b: string, ra: string, rb: string)
    requires forall i :: 0 <= i < |a| ==> IsDigit(a[i])
    requires forall i :: 0 <= i < |b| ==> IsDigit(b[i])
    requires ra == [] || !IsDigit(ra[0])
    requires rb == [] || !IsDigit(rb[0])
    requires a + ra == b + rb
    ensures a == b && ra == rb
  {
    var s := a + ra;
    assert forall j :: 0 <= j < |a| ==> IsDigit(s[j]);
    assert |s| > |a| ==> !IsDigit(s[|a|]);
    assert forall j :: 0 <= j < |b| ==> s[j] == b[j];
    assert |s| > |b| ==> s[|b|] == rb[0];
    assert |a| == |b|;
    assert a == s[..|a|] && b == s[..|b|];
    assert ra == s[|a|..] && rb == s[|b|..];
  }

  /**
    Two generated names coincide only when they were generated from the same
    millisecond, the same random integer and the same extension: the scheme
    never lets different clock or random values collide.
   */
  lemma StoredNameInjective(m1: nat, r1: nat, o1: string, m2: nat, r2: nat, o2: string)
    requires StoredName(m1, r1, o1) == StoredName(m2, r2, o2)
    ensures m1 == m2 && r1 == r2 && Extname(o1) == Extname(o2)
  {
    var tail1, tail2 := Decimal(r1) + Extname(o1), Decimal(r2) + Extname(o2);
    DigitsPrefixUnique(Decimal(m1), Decimal(m2), "-" + tail1, "-" + tail2);
    DecimalInjective(m1, m2);
    assert tail1 == ("-" + tail1)[1..] && tail2 == ("-" + tail2)[1..];
    DigitsPrefixUnique(Decimal(r1), Decimal(r2), Extname(o1), Extname(o2));
    DecimalInjective(r1, r2);
  }

  /**
    What multer does with the single file of `upload.single('photo')`: a file
    in another field is refused, then the file filter runs, then the size
    limit applies while the file is written under its generated name.
   */
  function Admit(file: FilePart, millis: nat, rand: nat): (a: Admission)
    ensures a.Admitted? <==>
      file.fieldname == PhotoField && file.mimetype in AllowedTypes && file.size <= MaxFileSize
    ensures a.Admitted? ==>
      a.filename == StoredName(millis, rand, file.originalname) &&
      a.filename[..|Decimal(millis)|] == Decimal(millis) &&
      a.filename[|a.filename| - |Extname(file.originalname)|..] == Extname(file.originalname)
    ensures a == Rejected(InvalidFileType) <==>
      file.fieldname == PhotoField && file.mimetype !in AllowedTypes
    ensures a == Rejected(FileTooLarge) <==>
      file.fieldname == PhotoField && file.mimetype in AllowedTypes && file.size > MaxFileSize
  {
    if file.fieldname != PhotoField then Rejected(UnexpectedField)
    else if !FileFilter(file.mimetype) then Rejected(InvalidFileType)
    else if file.size > MaxFileSize then Rejected(FileTooLarge)
    else Admitted(StoredName(millis, rand, file.originalname))
  }

  /** The allowed types are exactly the four image types, whatever order they are listed in. */
  lemma FileFilterIff(mimetype: string)
    ensures FileFilter(mimetype) <==>
      mimetype == "image/jpeg" || mimetype == "image/png" || mimetype == "image/gif" || mimetype == "image/jpg"
  {
  }

}
