/** The upload middleware: the accept/reject predicate on a file's extension
    and MIME type, the size limit and the stored file name
    (server/middleware/upload.js). */
module UploadMiddleware {
  import opened Wrappers
  import opened Text

  /** `limits.fileSize`: 50 MiB. */
  const MaxFileSize: nat := 50 * 1024 * 1024

  /** A file of `size` bytes is within the limit. */
  predicate WithinSizeLimit(size: nat) {
    size <= MaxFileSize
  }

  /** The alternatives of `/pdf|epub|jpeg|jpg|png|gif/`. */
  const FileTypes: seq<string> := ["pdf", "epub", "jpeg", "jpg", "png", "gif"]

  /** `filetypes.test(s)`: the pattern is not anchored, so it holds when any
      alternative occurs anywhere in `s`. */
  predicate MatchesFileTypes(s: string) {
    exists t :: t in FileTypes && Contains(s, t)
  }

  /** The part of a path after its last `/`. */
  function BaseName(p: string): (b: string)
    ensures Lacks(b, '/') && EndsWith(p, b)
    ensures Lacks(p, '/') ==> b == p
  {
    match LastIndexOfChar(p, '/')
    case None => p
    case Some(k) => p[k + 1..]
  }

  /** `path.extname`: from the last `.` of the base name to its end; empty when
      the base name has no `.`, starts with its only `.`, or is `..`. An
      extension is a tail of the path holding one `.`, at its start, and no
      `/`; a non-empty one is a proper tail of the base name, so together the
      clauses fix it as the base name from its last `.` on. */
  function ExtName(p: string): (e: string)
    ensures e == [] || e[0] == '.'
    ensures EndsWith(p, e)
    ensures forall j :: 0 < j < |e| ==> e[j] != '.'
    ensures forall j :: 0 <= j < |e| ==> e[j] != '/'
    ensures var b := BaseName(p);
      e == [] <==> b == ".." || forall j :: 0 < j < |b| ==> b[j] != '.'
    ensures e != [] ==> EndsWith(BaseName(p), e) && |e| < |BaseName(p)|
  {
    var b := BaseName(p);
    match LastIndexOfChar(b, '.')
    case None => ""
    case Some(k) => if k == 0 || b == ".." then "" else TailFromDot(p, b, k)
  }

  /** The tail of the base name `b` of `p` from its last `.`, at `k`. */
  function TailFromDot(p: string, b: string, k: nat): (e: string)
    requires EndsWith(p, b) && Lacks(b, '/')
    requires k < |b| && b[k] == '.' && forall j :: k < j < |b| ==> b[j] != '.'
    ensures e != [] && e[0] == '.' && EndsWith(p, e)
    ensures EndsWith(b, e) && |e| == |b| - k
    ensures forall j :: 0 < j < |e| ==> e[j] != '.'
    ensures forall j :: 0 <= j < |e| ==> e[j] != '/'
  {
    SuffixOfSuffix(p, b, |b| - k);
    b[k..]
  }

  /** A tail of a tail of `p` is a tail of `p`. */
  lemma SuffixOfSuffix(p: string, b: string, n: nat)
    requires EndsWith(p, b) && n <= |b|
    ensures p[|p| - n..] == b[|b| - n..]
  {
    assert p[|p| - n..] == p[|p| - |b|..][|b| - n..];
  }

  /** The last `c` of `stem + [c] + suffix` is the one after the stem when the
      suffix has none. */
  lemma {:induction false} LastIndexAfterStem(stem: string, c: char, suffix: string)
    requires Lacks(suffix, c)
    ensures LastIndexOfChar(stem + [c] + suffix, c) == Some(|stem|)
    decreases |suffix|
  {
    var s := stem + [c] + suffix;
    if suffix != [] {
      var shorter := suffix[..|suffix| - 1];
      assert s[..|s| - 1] == stem + [c] + shorter;
      assert s[|s| - 1] == suffix[|suffix| - 1];
      LastIndexAfterStem(stem, c, shorter);
    }
  }

  /** A base name whose stem does not start with `.` and whose suffix has no
      `.` has exactly that suffix as its extension; the stem may hold dots of
      its own. */
  lemma ExtNameOfStemAndSuffix(stem: string, suffix: string)
    requires stem != [] && stem[0] != '.' && Lacks(stem, '/')
    requires Lacks(suffix, '.') && Lacks(suffix, '/')
    ensures ExtName(stem + "." + suffix) == "." + suffix
  {
    var p := stem + "." + suffix;
    LacksConcat(stem + ".", suffix, '/');
    assert BaseName(p) == p;
    LastIndexAfterStem(stem, '.', suffix);
    assert p[0] == stem[0] != '.';
    assert p[|stem|..] == "." + suffix;
  }

  /** Only the last dot counts: a name such as `my.book.pdf` has the
      extension `.pdf`. */
  lemma ExtNameOfDottedName(a: string, b: string, suffix: string)
    requires a != [] && a[0] != '.' && Lacks(a, '/') && Lacks(b, '/')
    requires Lacks(suffix, '.') && Lacks(suffix, '/')
    ensures ExtName(a + "." + b + "." + suffix) == "." + suffix
  {
    LacksConcat(a, ".", '/');
    LacksConcat(a + ".", b, '/');
    ExtNameOfStemAndSuffix(a + "." + b, suffix);
  }

  /** A concatenation lacks `c` when both parts do. */
  lemma LacksConcat(a: string, b: string, c: char)
    requires Lacks(a, c) && Lacks(b, c)
    ensures Lacks(a + b, c)
  {
    forall j | 0 <= j < |a + b| ensures (a + b)[j] != c {
      if j >= |a| {
        assert (a + b)[j] == b[j - |a|];
      }
    }
  }

  /** Decimal digits hold no `.` and no `/`. */
  lemma DigitsLackSeparators(s: string)
    requires forall i :: 0 <= i < |s| ==> '0' <= s[i] <= '9'
    ensures Lacks(s, '.') && Lacks(s, '/')
  {
  }

  /** What the filter tells multer. */
  datatype Decision = Accept | Reject(message: string)

  /** `fileFilter`: the lower-cased extension and the MIME type as given must
      both match the pattern. */
  function FileFilter(originalName: string, mimeType: string): (d: Decision)
    ensures d == Accept <==> MatchesFileTypes(ToLower(ExtName(originalName))) && MatchesFileTypes(mimeType)
    ensures d.Reject? ==> d.message == "Only PDF and EPUB files are allowed"
  {
    if MatchesFileTypes(ToLower(ExtName(originalName))) && MatchesFileTypes(mimeType) then Accept
    else Reject("Only PDF and EPUB files are allowed")
  }

  /** A name whose only `.` is its first character has no extension, so the
      filter refuses it whatever its MIME type (`.pdf` is refused). */
  lemma DotFileRejected(suffix: string, mimeType: string)
    requires Lacks(suffix, '.') && Lacks(suffix, '/')
    ensures FileFilter("." + suffix, mimeType).Reject?
  {
    DotFileHasNoExtension(suffix);
    NoTypeInEmpty();
  }

  lemma DotFileHasNoExtension(suffix: string)
    requires Lacks(suffix, '.') && Lacks(suffix, '/')
    ensures ExtName("." + suffix) == ""
  {
    LastIndexAfterStem("", '.', suffix);
    assert "" + "." + suffix == "." + suffix;
    LacksConcat(".", suffix, '/');
  }

  /** No file type occurs in an empty extension. */
  lemma NoTypeInEmpty()
    ensures !MatchesFileTypes(ToLower(""))
  {
    assert ToLower("") == "";
    forall t | t in FileTypes ensures !Contains("", t) {
      assert t != [];
    }
  }

  /** The name a stored upload gets: the clock, a dash, the random number and
      the original extension as given. */
  function StoredFileName(now: nat, random: nat, originalName: string): (r: string)
    ensures StartsWith(r, NatToString(now) + "-")
  {
    NatToString(now) + "-" + NatToString(random) + ExtName(originalName)
  }

  /** The numeric part of a stored name holds no `.` and no `/`. */
  lemma StemLacksSeparators(now: nat, random: nat)
    ensures var stem := NatToString(now) + "-" + NatToString(random);
      stem != [] && Lacks(stem, '.') && Lacks(stem, '/')
  {
    var a := NatToString(now);
    var b := NatToString(random);
    DigitsLackSeparators(a);
    DigitsLackSeparators(b);
    LacksConcat(a, "-", '.');
    LacksConcat(a, "-", '/');
    LacksConcat(a + "-", b, '.');
    LacksConcat(a + "-", b, '/');
  }

  /** The stored name keeps the uploaded file's extension, so the filter's
      decision on it is the same as on the original. */
  lemma StoredNameKeepsExtension(now: nat, random: nat, originalName: string)
    ensures ExtName(StoredFileName(now, random, originalName)) == ExtName(originalName)
  {
    var e := ExtName(originalName);
    var stem := NatToString(now) + "-" + NatToString(random);
    StemLacksSeparators(now, random);
    assert StoredFileName(now, random, originalName) == stem + e;
    if e == [] {
      assert stem + e == stem;
      ExtNameOfPlainName(stem);
    } else {
      ExtensionSuffix(originalName);
      assert stem + e == stem + "." + e[1..];
      ExtNameOfStemAndSuffix(stem, e[1..]);
    }
  }

  /** A name with no `.` and no `/` has no extension. */
  lemma ExtNameOfPlainName(s: string)
    requires Lacks(s, '.') && Lacks(s, '/')
    ensures ExtName(s) == ""
  {
    assert BaseName(s) == s;
  }

  /** A non-empty extension is a dot followed by a suffix without `.` or `/`. */
  lemma ExtensionSuffix(p: string)
    requires ExtName(p) != []
    ensures var e := ExtName(p);
      e == "." + e[1..] && Lacks(e[1..], '.') && Lacks(e[1..], '/')
  {
    DotThenSuffix(ExtName(p));
  }

  lemma DotThenSuffix(e: string)
    requires e != [] && e[0] == '.'
    requires forall j :: 0 < j < |e| ==> e[j] != '.'
    requires forall j :: 0 <= j < |e| ==> e[j] != '/'
    ensures e == "." + e[1..] && Lacks(e[1..], '.') && Lacks(e[1..], '/')
  {
    forall j | 0 <= j < |e[1..]| ensures e[1..][j] != '.' && e[1..][j] != '/' {
      assert e[1..][j] == e[j + 1];
    }
  }
}
