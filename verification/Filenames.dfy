/** Client-supplied file names: their reduction to safe names, the upload allow-list and the object keys built from them. */
module Filenames {
  import opened Basics
  import opened Decimals
  import opened Identifiers
  import LikeSearch

  predicate Safe(c: char) {
    'A' <= c <= 'Z' || 'a' <= c <= 'z' || '0' <= c <= '9' || c == '.' || c == '_' || c == '-'
  }

  /** The 65 characters kept: the ASCII letters and digits, full stop, underscore and hyphen. */
  lemma SafeCharacters(c: char)
    ensures Safe(c) <==> 0x41 <= c as int <= 0x5A || 0x61 <= c as int <= 0x7A || 0x30 <= c as int <= 0x39 || c in {'.', '_', '-'}
  {
  }

  ghost predicate AllSafe(s: string) { forall i :: 0 <= i < |s| ==> Safe(s[i]) }

  // ---------------------------------------------------------- sanitize_filename

  /** What follows the last `/`, backslashes counting as slashes. */
  function BaseName(s: string): string {
    if s == "" || s[|s| - 1] == '/' || s[|s| - 1] == '\\' then ""
    else BaseName(s[..|s| - 1]) + [s[|s| - 1]]
  }

  /** Each maximal run of unsafe characters becomes one underscore. */
  function Squash(s: string): string {
    if s == "" then ""
    else if Safe(s[0]) then [s[0]] + Squash(s[1..])
    else if |s| > 1 && !Safe(s[1]) then Squash(s[1..])
    else "_" + Squash(s[1..])
  }

  function DropDots(s: string): string {
    if s != "" && s[0] == '.' then DropDots(s[1..]) else s
  }

  const FALLBACK := "document"

  /** The name before it is capped. */
  function Cleaned(filename: string): string {
    var c := DropDots(Squash(LikeSearch.Strip(BaseName(filename))));
    if c == "" then FALLBACK else c
  }

  /** Where the last dot is; `None` without one. */
  function LastDot(s: string): (r: Option<nat>)
    ensures r.Some? ==> r.value < |s| && s[r.value] == '.' && forall i :: r.value < i < |s| ==> s[i] != '.'
    ensures r.None? ==> '.' !in s
  {
    if s == "" then None
    else if s[|s| - 1] == '.' then Some(|s| - 1)
    else LastDot(s[..|s| - 1])
  }

  function Take(s: string, n: nat): (r: string)
    ensures r <= s && |r| <= n && (|s| <= n ==> r == s)
  {
    if |s| <= n then s else s[..n]
  }

  /** Stem and extension are cut to 100 and 10 characters, a name without a dot to 110. */
  function Capped(name: string): string {
    match LastDot(name)
    case None => Take(name, 110)
    case Some(k) =>
      var stem := Take(name[..k], 100);
      (if stem == "" then FALLBACK else stem) + "." + Take(name[k + 1..], 10)
  }

  function Sanitize(filename: string): string { Capped(Cleaned(filename)) }

  // ---------------------------------------------------- what sanitising promises

  lemma {:induction false} SquashSafe(s: string)
    ensures AllSafe(Squash(s))
  {
    if s != "" {
      SquashSafe(s[1..]);
    }
  }

  lemma {:induction false} SquashNothing(s: string)
    requires AllSafe(s)
    ensures Squash(s) == s
  {
    if s != "" {
      SquashNothing(s[1..]);
    }
  }

  lemma {:induction false} DropDotsEffect(s: string)
    ensures |DropDots(s)| <= |s| && DropDots(s) == s[|s| - |DropDots(s)|..]
    ensures DropDots(s) != "" ==> DropDots(s)[0] != '.'
  {
    if s != "" && s[0] == '.' {
      DropDotsEffect(s[1..]);
    }
  }

  lemma {:induction false} BaseOfSafe(s: string)
    requires AllSafe(s)
    ensures BaseName(s) == s
  {
    if s != "" {
      BaseOfSafe(s[..|s| - 1]);
    }
  }

  /** Non-empty, only safe characters, no dot in front. */
  ghost predicate Clean(name: string) { name != "" && name[0] != '.' && AllSafe(name) }

  lemma CleanedIsClean(filename: string)
    ensures Clean(Cleaned(filename))
  {
    var squashed := Squash(LikeSearch.Strip(BaseName(filename)));
    SquashSafe(LikeSearch.Strip(BaseName(filename)));
    DropDotsEffect(squashed);
  }

  lemma StripNothing(s: string)
    requires AllSafe(s)
    ensures LikeSearch.Strip(s) == s
  {
    assert s != "" ==> Safe(s[0]) && Safe(s[|s| - 1]);
  }

  lemma CleaningNothing(name: string)
    requires Clean(name)
    ensures Cleaned(name) == name
  {
    BaseOfSafe(name);
    StripNothing(name);
    SquashNothing(name);
    assert DropDots(name) == name;
  }

  /** A clean name with its last dot split off. */
  lemma CappedParts(name: string)
    requires Clean(name)
    ensures match LastDot(name)
            case None => Capped(name) == Take(name, 110)
            case Some(k) => k > 0 && Capped(name) == Take(name[..k], 100) + "." + Take(name[k + 1..], 10)
  {
  }

  lemma LastDotIs(s: string, k: nat)
    requires k < |s| && s[k] == '.' && forall i :: k < i < |s| ==> s[i] != '.'
    ensures LastDot(s) == Some(k)
  {
    assert LastDot(s).Some?;
  }

  /** Stem and extension of a capped name that has a dot. */
  lemma CappedWithDot(name: string, k: nat)
    requires Clean(name) && LastDot(name) == Some(k)
    ensures var stem, ext := Take(name[..k], 100), Take(name[k + 1..], 10);
            && stem != "" && '.' !in ext && Capped(name) == stem + "." + ext && Clean(Capped(name))
            && LastDot(Capped(name)) == Some(|stem|)
  {
    CappedParts(name);
    LastDotIs(Capped(name), |Take(name[..k], 100)|);
  }

  /** A capped name keeps its promises, and capping it again changes nothing. */
  lemma CapKeepsClean(name: string)
    requires Clean(name)
    ensures Clean(Capped(name)) && |Capped(name)| <= 111 && Capped(Capped(name)) == Capped(name)
  {
    var capped := Capped(name);
    match LastDot(name)
    case None =>
      CappedParts(name);
      CappedParts(capped);
    case Some(k) =>
      CappedWithDot(name, k);
      var stem, ext := Take(name[..k], 100), Take(name[k + 1..], 10);
      assert capped[..|stem|] == stem && capped[|stem| + 1..] == ext;
  }

  /** Sanitising yields a flat safe name of at most 111 characters, and doing it twice is doing it once. */
  lemma SanitizeIsSafeAndIdempotent(filename: string)
    ensures Clean(Sanitize(filename)) && |Sanitize(filename)| <= 111
    ensures Sanitize(Sanitize(filename)) == Sanitize(filename)
  {
    CleanedIsClean(filename);
    CapKeepsClean(Cleaned(filename));
    CleaningNothing(Sanitize(filename));
  }

  // ---------------------------------------------------- what sanitising keeps

  ghost predicate AllDots(s: string) { forall i :: 0 <= i < |s| ==> s[i] == '.' }

  ghost predicate NoneSafe(s: string) { forall i :: 0 <= i < |s| ==> !Safe(s[i]) }

  ghost predicate Slash(c: char) { c == '/' || c == '\\' }

  /** Ends in a slash of either kind, or is empty. */
  ghost predicate Directory(s: string) { s == "" || Slash(s[|s| - 1]) }

  ghost predicate Flat(s: string) { forall i :: 0 <= i < |s| ==> !Slash(s[i]) }

  /** Only what follows the last slash counts. */
  lemma {:induction false} BaseNameIs(directory: string, name: string)
    requires Directory(directory) && Flat(name)
    ensures BaseName(directory + name) == name
  {
    var s := directory + name;
    if name == "" {
      assert s == directory;
    } else {
      BaseNameIs(directory, name[..|name| - 1]);
      assert s[..|s| - 1] == directory + name[..|name| - 1];
    }
  }

  lemma {:induction false} SquashRun(run: string, rest: string)
    requires run != "" && NoneSafe(run) && (rest == "" || Safe(rest[0]))
    ensures Squash(run + rest) == "_" + Squash(rest)
  {
    var s := run + rest;
    assert s[1..] == run[1..] + rest;
    if |run| > 1 {
      SquashRun(run[1..], rest);
    }
  }

  /** Safe characters stay as they are and in their order; a run of others leaves one underscore in its place. */
  lemma {:induction false} SquashIs(safe: string, run: string, rest: string)
    requires AllSafe(safe) && run != "" && NoneSafe(run) && (rest == "" || Safe(rest[0]))
    ensures Squash(safe) == safe
    ensures Squash(safe + run + rest) == safe + "_" + Squash(rest)
  {
    SquashNothing(safe);
    if safe == "" {
      SquashRun(run, rest);
      assert safe + run + rest == run + rest && safe + "_" + Squash(rest) == "_" + Squash(rest);
    } else {
      var s := safe + run + rest;
      assert s[1..] == safe[1..] + run + rest;
      assert [safe[0]] + (safe[1..] + "_" + Squash(rest)) == safe + "_" + Squash(rest);
      SquashIs(safe[1..], run, rest);
    }
  }

  lemma {:induction false} DropDotsIs(dots: string, rest: string)
    requires AllDots(dots) && (rest == "" || rest[0] != '.')
    ensures DropDots(dots + rest) == rest
  {
    if dots != "" {
      assert (dots + rest)[1..] == dots[1..] + rest;
      DropDotsIs(dots[1..], rest);
    }
  }

  /** A directory, white space around the name and dots before it are all that cleaning drops from a safe name. */
  lemma CleaningDropsDressing(directory: string, before: string, dots: string, name: string, after: string)
    requires Directory(directory) && LikeSearch.AllSpace(before + after) && AllDots(dots)
    requires AllSafe(name) && (name == "" || name[0] != '.')
    ensures Cleaned(directory + (before + (dots + name) + after)) == if name == "" then "document" else name
  {
    assert forall i :: 0 <= i < |before| ==> before[i] == (before + after)[i];
    assert forall i :: 0 <= i < |after| ==> after[i] == (before + after)[|before| + i];
    BaseNameIs(directory, before + (dots + name) + after);
    LikeSearch.StripIs(before, dots + name, after);
    SquashNothing(dots + name);
    DropDotsIs(dots, name);
  }

  /** The part after the last dot keeps ten characters, the part before it a hundred, a name without a dot 110. */
  lemma CappedIs(stem: string, extension: string)
    requires '.' !in extension
    ensures var shortStem := if stem == "" then "document" else if |stem| <= 100 then stem else stem[..100];
            var shortExtension := if |extension| <= 10 then extension else extension[..10];
            Capped(stem + "." + extension) == shortStem + "." + shortExtension
    ensures Capped(extension) == if |extension| <= 110 then extension else extension[..110]
  {
    var name := stem + "." + extension;
    LastDotIs(name, |stem|);
    assert name[..|stem|] == stem && name[|stem| + 1..] == extension;
  }

  ghost predicate Short(name: string) {
    match LastDot(name)
    case None => |name| <= 110
    case Some(k) => k <= 100 && |name| - k - 1 <= 10
  }

  /** A safe name of moderate length is what is kept, whatever directory, white space or leading dots it came with. */
  lemma SanitizeKeepsSafeNames(directory: string, before: string, dots: string, name: string, after: string)
    requires Directory(directory) && LikeSearch.AllSpace(before + after) && AllDots(dots)
    requires AllSafe(name) && (name == "" || name[0] != '.') && Short(name)
    ensures Sanitize(directory + (before + (dots + name) + after)) == if name == "" then "document" else name
  {
    CleaningDropsDressing(directory, before, dots, name, after);
    if name == "" {
      CappedIs("", "document");
    } else if LastDot(name).Some? {
      CappedParts(name);
    }
  }

  // -------------------------------------------------------------- the extension

  function LowerAscii(c: char): char {
    if 'A' <= c <= 'Z' then (c as int + 32) as char else c
  }

  function Lower(s: string): (r: string)
    ensures |r| == |s| && forall i :: 0 <= i < |s| ==> r[i] == LowerAscii(s[i])
  {
    seq(|s|, i requires 0 <= i < |s| => LowerAscii(s[i]))
  }

  /** `os.path.splitext(name)[1].lower()` of a flat name: dots in front do not start an extension. */
  function ExtensionOf(name: string): string {
    match LastDot(name)
    case None => ""
    case Some(k) => if forall i :: 0 <= i < k ==> name[i] == '.' then "" else Lower(name[k..])
  }

  /** Everything from the last dot on, lower-cased, provided something other than a dot comes before it. */
  lemma ExtensionIs(stem: string, extension: string)
    requires '.' !in extension
    ensures ExtensionOf(stem + "." + extension) == if AllDots(stem) then "" else "." + Lower(extension)
    ensures ExtensionOf(extension) == ""
  {
    var name := stem + "." + extension;
    LastDotIs(name, |stem|);
    LowerAfterDot(extension);
    Regroup(stem, ".", extension);
    AfterStem(stem, "." + extension);
    assert AllDots(stem) <==> forall i :: 0 <= i < |stem| ==> name[i] == '.';
  }

  lemma AfterStem(stem: string, rest: string)
    ensures |stem| <= |stem + rest| && (stem + rest)[|stem|..] == rest
  {
  }

  lemma LowerAfterDot(extension: string)
    ensures Lower("." + extension) == "." + Lower(extension)
  {
  }

  /** The 26 capitals move to their small letters, keeping their place in the alphabet; nothing else changes. */
  lemma LowerAsciiIs(c: char)
    ensures LowerAscii(c) as int == if 'A' <= c <= 'Z' then 'a' as int + (c as int - 'A' as int) else c as int
  {
  }

  const ALLOWED: set<string> := {".pdf", ".png", ".jpg", ".jpeg", ".tif", ".tiff", ".txt", ".docx", ".doc"}

  datatype NameError = Missing | TooLong | NullByte | NotPermitted

  /** `validate_filename`: the safe name and its extension. */
  function ValidateFilename(filename: string): Result<(string, string), NameError> {
    if LikeSearch.Strip(filename) == "" then Err(Missing)
    else if |filename| > 255 then Err(TooLong)
    else if '\0' in filename then Err(NullByte)
    else
      var safe := Sanitize(filename);
      var extension := ExtensionOf(safe);
      if extension !in ALLOWED then Err(NotPermitted) else Ok((safe, extension))
  }

  /** With a dot in it, a clean name's extension is everything from the last dot. */
  lemma ExtensionWithDot(name: string, k: nat)
    requires Clean(name) && LastDot(name) == Some(k)
    ensures ExtensionOf(name) == Lower(name[k..])
  {
    assert k > 0 && name[0] != '.';
  }

  lemma ExtensionAfterCap(name: string, k: nat)
    requires Clean(name) && LastDot(name) == Some(k)
    ensures ExtensionOf(Capped(name)) == Lower("." + Take(name[k + 1..], 10))
  {
    var stem, ext, capped := Take(name[..k], 100), Take(name[k + 1..], 10), Capped(name);
    CappedWithDot(name, k);
    Regroup(stem, ".", ext);
    AfterStem(stem, "." + ext);
    ExtensionWithDot(capped, |stem|);
  }

  /** The extension of a capped name is the original one, or longer than any allowed. */
  lemma CappedExtension(name: string)
    requires Clean(name)
    ensures ExtensionOf(Capped(name)) == ExtensionOf(name) || (|ExtensionOf(Capped(name))| > 5 && |ExtensionOf(name)| > 5)
  {
    match LastDot(name)
    case None =>
      CappedParts(name);
      assert LastDot(Capped(name)) == None;
    case Some(k) =>
      ExtensionWithDot(name, k);
      ExtensionAfterCap(name, k);
      assert name[k..] == "." + name[k + 1..];
  }

  /** Cutting a name to size neither grants nor removes an allowed extension. */
  lemma CapKeepsExtension(name: string)
    requires Clean(name)
    ensures ExtensionOf(Capped(name)) in ALLOWED <==> ExtensionOf(name) in ALLOWED
    ensures ExtensionOf(name) in ALLOWED ==> ExtensionOf(Capped(name)) == ExtensionOf(name)
  {
    CappedExtension(name);
    AllowedIsShort(ExtensionOf(name));
    AllowedIsShort(ExtensionOf(Capped(name)));
  }

  lemma AllowedIsShort(extension: string)
    ensures extension in ALLOWED ==> |extension| <= 5
  {
  }

  /** What is accepted ends, up to case, in an allowed extension, however the name was dressed up. */
  lemma AcceptedNames(filename: string)
    ensures ValidateFilename(filename).Ok?
       <==> LikeSearch.Strip(filename) != "" && |filename| <= 255 && '\0' !in filename
            && ExtensionOf(Cleaned(filename)) in ALLOWED
    ensures ValidateFilename(filename).Ok? ==>
              var (safe, extension) := ValidateFilename(filename).value;
              && Clean(safe) && safe == Sanitize(filename) && Sanitize(safe) == safe
              && extension == ExtensionOf(Cleaned(filename)) == ExtensionOf(safe)
  {
    CleanedIsClean(filename);
    CapKeepsExtension(Cleaned(filename));
    SanitizeIsSafeAndIdempotent(filename);
  }

  /** Why a name is refused: blank, then over 255 characters, then a NUL, then none of nine extensions. */
  lemma RefusedNames(filename: string)
    ensures var r := ValidateFilename(filename);
            var blank := LikeSearch.AllSpace(filename);
            var permitted := {".pdf", ".png", ".jpg", ".jpeg", ".tif", ".tiff", ".txt", ".docx", ".doc"};
            && (r == Err(Missing) <==> blank)
            && (r == Err(TooLong) <==> !blank && |filename| > 255)
            && (r == Err(NullByte) <==> !blank && |filename| <= 255 && '\0' in filename)
            && (r.Ok? <==> !blank && |filename| <= 255 && '\0' !in filename && ExtensionOf(Cleaned(filename)) in permitted)
  {
    LikeSearch.StripEmptyIff(filename);
    AcceptedNames(filename);
  }

  // -------------------------------------------------------------- object keys

  predicate HasTwoDots(s: string) { exists i :: 0 <= i < |s| - 1 && DotsAt(s, i) }

  predicate DotsAt(s: string, i: int)
    requires 0 <= i < |s| - 1
  {
    s[i] == '.' && s[i + 1] == '.'
  }

  /** The parts before the display name. */
  function KeyPrefix(caseId: Id, documentId: Id, version: nat, unique: HexId): string {
    "cases/" + caseId + "/documents/" + documentId + "/v" + Digits(version) + "/" + unique + "-"
  }

  /** `build_object_key`; `unique` is the fresh `uuid4().hex`. */
  function BuildObjectKey(caseId: Id, documentId: Id, version: nat, unique: HexId, filename: string): Result<string, ()> {
    var key := KeyPrefix(caseId, documentId, version, unique) + Sanitize(filename);
    if HasTwoDots(key) || (key != "" && key[0] == '/') then Err(()) else Ok(key)
  }

  ghost predicate Dotless(s: string) { '.' !in s }

  lemma PrefixIsDotless(caseId: Id, documentId: Id, version: nat, unique: HexId)
    ensures Dotless(KeyPrefix(caseId, documentId, version, unique))
  {
    assert Dotless(caseId) && Dotless(documentId) && Dotless(unique);
    assert Dotless(Digits(version));
  }

  lemma DotsInTail(prefix: string, name: string)
    requires Dotless(prefix)
    ensures HasTwoDots(prefix + name) <==> HasTwoDots(name)
  {
    var key := prefix + name;
    if HasTwoDots(name) {
      var i :| 0 <= i < |name| - 1 && DotsAt(name, i);
      assert DotsAt(key, |prefix| + i);
    }
    if HasTwoDots(key) {
      var i :| 0 <= i < |key| - 1 && DotsAt(key, i);
      assert i >= |prefix|;
      assert DotsAt(name, i - |prefix|);
    }
  }

  /** The guard against escaping keys fires exactly for a sanitised name with two adjacent dots. */
  lemma KeyRefusedIff(caseId: Id, documentId: Id, version: nat, unique: HexId, filename: string)
    ensures BuildObjectKey(caseId, documentId, version, unique, filename).Err? <==> HasTwoDots(Sanitize(filename))
  {
    var prefix := KeyPrefix(caseId, documentId, version, unique);
    PrefixIsDotless(caseId, documentId, version, unique);
    DotsInTail(prefix, Sanitize(filename));
    assert prefix[0] == 'c';
  }

  /** The guard can fire: two dots in the middle survive sanitising, in a name that uploads accept. */
  lemma TwoDotsSurvive()
    ensures Sanitize("a..pdf") == "a..pdf" && HasTwoDots("a..pdf") && ValidateFilename("a..pdf").Ok?
  {
    var name := "a..pdf";
    CleaningNothing(name);
    LastDotIs(name, 2);
    assert name[..2] == "a." && name[3..] == "pdf";
    assert DotsAt(name, 1);
    TwoDotsAccepted(name);
  }

  lemma TwoDotsAccepted(name: string)
    requires name == "a..pdf" && Cleaned(name) == name && LastDot(name) == Some(2)
    ensures ValidateFilename(name).Ok?
  {
    StripNothing(name);
    ExtensionWithDot(name, 2);
    assert name[2..] == ".pdf" && Lower(".pdf") == ".pdf";
    AcceptedNames(name);
  }

  lemma DigitsThenSlash(a: string, x: string, b: string, y: string)
    requires a + "/" + x == b + "/" + y && '/' !in a && '/' !in b
    ensures a == b && x == y
  {
    var s := a + "/" + x;
    assert s[|a|] == '/' && s[|b|] == '/' by {
      assert s == b + "/" + y;
    }
    assert forall i :: 0 <= i < |a| ==> s[i] == a[i];
    assert forall i :: 0 <= i < |b| ==> s[i] == b[i];
    assert |a| == |b|;
    assert a == s[..|a|] && b == s[..|b|];
    assert x == s[|a| + 1..] && y == s[|b| + 1..];
  }

  /** A key splits back into its parts in one way only. */
  lemma KeySplitsUniquely(c1: Id, d1: Id, v1: nat, u1: HexId, f1: string, c2: Id, d2: Id, v2: nat, u2: HexId, f2: string)
    requires BuildObjectKey(c1, d1, v1, u1, f1).Ok?
    requires BuildObjectKey(c1, d1, v1, u1, f1) == BuildObjectKey(c2, d2, v2, u2, f2)
    ensures c1 == c2 && d1 == d2 && v1 == v2 && u1 == u2 && Sanitize(f1) == Sanitize(f2)
  {
    var key := BuildObjectKey(c1, d1, v1, u1, f1).value;
    KeyParts(c1, d1, v1, u1, Sanitize(f1));
    KeyParts(c2, d2, v2, u2, Sanitize(f2));
    var t1, t2 := u1 + "-" + Sanitize(f1), u2 + "-" + Sanitize(f2);
    assert '/' !in Digits(v1) && '/' !in Digits(v2);
    DigitsThenSlash(Digits(v1), t1, Digits(v2), t2);
    DigitsInjective(v1, v2);
    assert u1 == t1[..HEX_LENGTH] && u2 == t2[..HEX_LENGTH];
    assert Sanitize(f1) == t1[HEX_LENGTH + 1..] && Sanitize(f2) == t2[HEX_LENGTH + 1..];
  }

  /** The fixed offsets of the fixed-width parts. */
  lemma KeyParts(c: Id, d: Id, v: nat, u: HexId, name: string)
    ensures var key := KeyPrefix(c, d, v, u) + name;
            && |key| > 91 && key[6..42] == c && key[53..89] == d && key[91..] == Digits(v) + "/" + (u + "-" + name)
            && key[..6] == "cases/" && key[42..53] == "/documents/" && key[89..91] == "/v"
  {
    var key := KeyPrefix(c, d, v, u) + name;
    var tail := Digits(v) + "/" + (u + "-" + name);
    assert key == "cases/" + c + "/documents/" + d + "/v" + tail;
  }
}
