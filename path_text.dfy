/**
 * The two string operations the playback routine applies to its file path:
 * .NET's Path.GetExtension and String.ToLower (restricted to ASCII letters).
 */
module PathText {

  /** A directory separator; the model follows .NET on Unix, where '/' is the only one. */
  predicate IsSeparator(c: char)
  {
    c == '/'
  }

  /** `path` ends with `suffix`. */
  predicate EndsWith(path: string, suffix: string)
  {
    |suffix| <= |path| && path[|path| - |suffix|..] == suffix
  }

  /**
   * The extension of `path` as Path.GetExtension returns it: the text from the
   * last '.' of the final path component to the end, dot included; empty when
   * that component has no '.', or when the path ends in '.'.
   * ExtensionSpec states this.
   */
  function Extension(path: string): (ext: string)
  {
    ExtensionScan(path, |path|)
  }

  /** The backwards scan of Path.GetExtension, with path[i..] already scanned. */
  function ExtensionScan(path: string, i: nat): (ext: string)
    requires i <= |path|
    decreases i
  {
    if i == 0 then []
    else if path[i - 1] == '.' then
      (if i == |path| then [] else path[i - 1..])
    else if IsSeparator(path[i - 1]) then []
    else ExtensionScan(path, i - 1)
  }

  /** Some '.' of `path`, other than a final one, has no separator after it. */
  predicate HasDottedName(path: string)
  {
    exists k | 0 <= k < |path| - 1 :: path[k] == '.' && NoSeparatorFrom(path, k + 1)
  }

  predicate NoSeparatorFrom(path: string, k: nat)
    requires k <= |path|
  {
    forall j | k <= j < |path| :: !IsSeparator(path[j])
  }

  /**
   * A non-empty extension is a suffix of the path that starts with its only
   * '.' and holds no separator; it is empty exactly when the path ends in '.'
   * or no '.' is followed by a name without a separator.
   */
  lemma ExtensionSpec(path: string)
    ensures var ext := Extension(path);
      (ext != [] ==> |ext| >= 2 && ext[0] == '.' && EndsWith(path, ext)) &&
      (ext != [] ==> forall k | 1 <= k < |ext| :: ext[k] != '.' && !IsSeparator(ext[k])) &&
      (ext == [] <==> (|path| > 0 && path[|path| - 1] == '.') || !HasDottedName(path))
  {
    ExtensionScanSpec(path, |path|);
  }

  lemma {:induction false} ExtensionScanSpec(path: string, i: nat)
    requires i <= |path|
    requires NoSeparatorFrom(path, i) && forall j | i <= j < |path| :: path[j] != '.'
    ensures var ext := ExtensionScan(path, i);
      (ext != [] ==> |ext| >= 2 && ext[0] == '.' && EndsWith(path, ext)) &&
      (ext != [] ==> forall k | 1 <= k < |ext| :: ext[k] != '.' && !IsSeparator(ext[k])) &&
      (ext == [] <==>
        (|path| > 0 && path[|path| - 1] == '.' && i == |path|) ||
        !(exists k | 0 <= k < i && k < |path| - 1 :: path[k] == '.' && NoSeparatorFrom(path, k + 1)))
    decreases i
  {
    if i > 0 && path[i - 1] != '.' && !IsSeparator(path[i - 1]) {
      ExtensionScanSpec(path, i - 1);
    }
  }

  /** The scan passes over a stretch of the path holding neither '.' nor a separator. */
  lemma {:induction false} ScanSkipsName(path: string, i: nat, j: nat)
    requires j <= i <= |path|
    requires forall k | j <= k < i :: path[k] != '.' && !IsSeparator(path[k])
    ensures ExtensionScan(path, i) == ExtensionScan(path, j)
    decreases i - j
  {
    if i > j {
      ScanSkipsName(path, i - 1, j);
    }
  }

  /** A path whose final component ends in '.' and a non-empty name has that '.' and name as its extension. */
  lemma ExtensionOfSuffix(path: string, n: nat)
    requires 2 <= n <= |path| && path[|path| - n] == '.'
    requires forall k | |path| - n < k < |path| :: path[k] != '.' && !IsSeparator(path[k])
    ensures Extension(path) == path[|path| - n..]
  {
    ScanSkipsName(path, |path|, |path| - n + 1);
  }

  /** ASCII lower-casing of one character; every other character is unchanged. */
  function LowerChar(c: char): (d: char)
    ensures !IsUpper(d)
    ensures !IsUpper(c) ==> d == c
    ensures IsUpper(c) ==> d as int == c as int + 32
  {
    if 'A' <= c <= 'Z' then (c as int - 'A' as int + 'a' as int) as char else c
  }

  /** An upper-case ASCII letter. */
  predicate IsUpper(c: char)
  {
    'A' <= c <= 'Z'
  }

  /**
   * ASCII lower-casing: no upper-case letter is left, every other character
   * is kept, and each upper-case letter becomes its lower-case partner.
   */
  function ToLower(s: string): (r: string)
    ensures |r| == |s|
    ensures forall i | 0 <= i < |r| :: !IsUpper(r[i])
    ensures forall i | 0 <= i < |s| && !IsUpper(s[i]) :: r[i] == s[i]
    ensures forall i | 0 <= i < |s| && IsUpper(s[i]) :: r[i] as int == s[i] as int + 32
  {
    seq(|s|, i requires 0 <= i < |s| => LowerChar(s[i]))
  }

  /** Lower-casing a lower-cased string changes nothing. */
  lemma ToLowerIdempotent(s: string)
    ensures ToLower(ToLower(s)) == ToLower(s)
  {
    var r := ToLower(s);
    assert forall i | 0 <= i < |r| :: ToLower(r)[i] == r[i];
  }

  /** The lower-cased extension is ".ogg" exactly when it is ".ogg" in any mix of letter case. */
  lemma LowerIsOgg(ext: string)
    ensures ToLower(ext) == ".ogg" <==>
      |ext| == 4 && ext[0] == '.' && ext[1] in "oO" && ext[2] in "gG" && ext[3] in "gG"
  {
  }
}
