/**
 * Names in the download directory: `sanitize_file_name` and `unique_dest_path` of
 * `server/src/file_transfer.rs`, with Unix path rules.
 */
module FreeName {
  import opened Base
  import opened Text
  import Decimal

  type Dir = map<string, seq<byte>>

  // ----- sanitizing -----

  function LastIndex(s: string, c: char): (r: Option<nat>)
    ensures r.Some? ==> r.value < |s| && s[r.value] == c && c !in s[r.value + 1..]
    ensures r.None? <==> c !in s
  {
    if s == [] then None
    else if s[|s| - 1] == c then Some(|s| - 1)
    else
      var r := LastIndex(s[..|s| - 1], c);
      assert r.Some? ==> s[r.value + 1..] == s[..|s| - 1][r.value + 1..] + [s[|s| - 1]];
      r
  }

  /** `Path::file_name`: the last component, ignoring empty and `.` components, unless it is `..`. */
  function FileName(path: string): Option<string> {
    match LastIndex(path, '/')
    case None => if path == "" || path == "." || path == ".." then None else Some(path)
    case Some(i) =>
      var last := path[i + 1..];
      if last == "" || last == "." then FileName(path[..i])
      else if last == ".." then None
      else Some(last)
  }

  predicate IsControl(c: char) {
    var n := c as int;
    n <= 0x1f || 0x7f <= n <= 0x9f
  }

  predicate HasControl(s: string) {
    exists i :: 0 <= i < |s| && IsControl(s[i])
  }

  function Sanitize(name: string): string {
    var f := FileName(name);
    var candidate := Trim(if f.Some? then f.value else "");
    if candidate == "" || candidate == "." || candidate == ".." || HasControl(candidate)
    then "received_file" else candidate
  }

  /** A bare file name: one ordinary path component, trimmed, without control characters. */
  predicate SafeName(name: string) {
    && name != "" && name != "." && name != ".."
    && '/' !in name && Trimmed(name) && !HasControl(name)
  }

  lemma {:induction false} FileNameHasNoSlash(path: string)
    ensures FileName(path).Some? ==> '/' !in FileName(path).value
  {
    var r := LastIndex(path, '/');
    if r.Some? {
      FileNameHasNoSlash(path[..r.value]);
    }
  }

  lemma ReceivedFileIsSafe()
    ensures SafeName("received_file")
  {
    var s := "received_file";
    assert forall i :: 0 <= i < |s| ==> 'a' <= s[i] <= 'z' || s[i] == '_';
  }

  /** Whatever the peer sends, the sanitized name stays inside the directory. */
  lemma SanitizeIsSafe(name: string)
    ensures SafeName(Sanitize(name))
  {
    ReceivedFileIsSafe();
    FileNameHasNoSlash(name);
    var f := FileName(name);
    TrimResult(if f.Some? then f.value else "");
  }

  /** Exactly the safe names are kept as they are. */
  lemma SanitizeKeepsIff(name: string)
    ensures Sanitize(name) == name <==> SafeName(name)
  {
    if SafeName(name) {
      TrimResult(name);
    } else {
      SanitizeIsSafe(name);
    }
  }

  /** Directory components in front of a safe name are dropped, whatever they are. */
  lemma SanitizeDropsDirectories(directory: string, name: string)
    requires SafeName(name)
    ensures Sanitize(directory + "/" + name) == name
  {
    assert directory + "/" + name == directory + (['/'] + name);
    SanitizeLastComponent(directory, name);
    TrimResult(name);
  }

  lemma LastIndexIs(s: string, c: char, i: nat)
    requires i < |s| && s[i] == c && c !in s[i + 1..]
    ensures LastIndex(s, c) == Some(i)
  {
  }

  lemma LastSlashOf(directory: string, last: string)
    requires '/' !in last
    ensures var path := directory + (['/'] + last);
            && LastIndex(path, '/') == Some(|directory|)
            && path[..|directory|] == directory && path[|directory| + 1..] == last
  {
    var path := directory + (['/'] + last);
    assert path[|directory| + 1..] == last;
    LastIndexIs(path, '/', |directory|);
  }

  /**
   * What becomes of any last component: it is kept without the white space around it if that
   * leaves a safe name, and replaced by the fixed one otherwise.
   */
  lemma SanitizeLastComponent(directory: string, last: string)
    requires '/' !in last && last != "" && last != "."
    ensures Sanitize(directory + (['/'] + last))
            == if last != ".." && SafeName(Trim(last)) then Trim(last) else "received_file"
    ensures Sanitize(last) == Sanitize(directory + (['/'] + last))
  {
    LastComponentIs(directory, last);
    TrimResult(last);
  }

  lemma LastComponentIs(directory: string, last: string)
    requires '/' !in last && last != "" && last != "."
    ensures FileName(directory + (['/'] + last)) == FileName(last) == if last == ".." then None else Some(last)
  {
    LastSlashOf(directory, last);
    assert LastIndex(last, '/').None?;
  }

  /** A trailing slash, or a trailing dot component, does not count as a component. */
  lemma SanitizeIgnoresTrailing(path: string)
    ensures Sanitize(path + (['/'] + "")) == Sanitize(path) == Sanitize(path + (['/'] + "."))
  {
    LastSlashOf(path, "");
    LastSlashOf(path, ".");
  }

  // ----- candidates -----

  /** Position of the dot that separates the extension; a leading dot does not. */
  function ExtensionDot(name: string): (r: Option<nat>)
    ensures r.Some? ==> 0 < r.value < |name| && name[r.value] == '.'
  {
    match LastIndex(name, '.')
    case Some(i) => if i > 0 then Some(i) else None
    case None => None
  }

  function Stem(name: string): string {
    match ExtensionDot(name) case Some(i) => name[..i] case None => name
  }

  /** The extension with its dot, or nothing. */
  function Suffix(name: string): string {
    match ExtensionDot(name) case Some(i) => name[i..] case None => ""
  }

  /** Stem and suffix recompose the name, split at its last dot unless that is its first character. */
  lemma StemAndSuffix(name: string)
    ensures Stem(name) + Suffix(name) == name
    ensures Suffix(name) != [] ==>
              Suffix(name)[0] == '.' && '.' !in Suffix(name)[1..] && Stem(name) != []
    ensures Suffix(name) == [] && name != [] ==> '.' !in name[1..]
  {
    var r := LastIndex(name, '.');
    if r.Some? && r.value > 0 {
      assert name[r.value..][1..] == name[r.value + 1..];
    }
  }

  /** The names tried in turn: the name itself, then `stem (1).ext`, `stem (2).ext`, ... */
  function Candidate(name: string, i: nat): string {
    if i == 0 then name else Stem(name) + " (" + Decimal.Print(i) + ")" + Suffix(name)
  }

  /** Candidate `i` is `stem (i).ext`, split at the last dot, or `name (i)` for a name without one after its start. */
  lemma CandidateFormat(stem: string, ext: string, i: nat)
    requires stem != "" && '.' !in ext && i > 0
    ensures Candidate(stem + (['.'] + ext), i) == stem + " (" + Decimal.Print(i) + ")." + ext
    ensures '.' !in stem[1..] ==> Candidate(stem, i) == stem + " (" + Decimal.Print(i) + ")"
    ensures Candidate(stem, 0) == stem
  {
    var name := stem + (['.'] + ext);
    assert name[|stem| + 1..] == ext;
    LastIndexIs(name, '.', |stem|);
    assert name[..|stem|] == stem && name[|stem|..] == ['.'] + ext;
    assert stem + " (" + Decimal.Print(i) + ")" + (['.'] + ext) == stem + " (" + Decimal.Print(i) + ")." + ext;
    var dot := LastIndex(stem, '.');
    assert dot.Some? && dot.value > 0 ==> stem[1..][dot.value - 1] == '.';
  }

  lemma CandidateLength(name: string, i: nat)
    ensures |Candidate(name, i)| == |name| + if i == 0 then 0 else 3 + |Decimal.Print(i)|
  {
    StemAndSuffix(name);
  }

  /** The index can be read back from its candidate. */
  lemma CandidateDigits(name: string, i: nat)
    requires i > 0
    ensures var c, a, b := Candidate(name, i), |Stem(name)| + 2, 1 + |Suffix(name)|;
            a + b <= |c| && c[a..|c| - b] == Decimal.Print(i)
  {
  }

  /** Different indices give different names. */
  lemma CandidatesDiffer(name: string, i: nat, j: nat)
    requires i != j
    ensures Candidate(name, i) != Candidate(name, j)
  {
    CandidateLength(name, i);
    CandidateLength(name, j);
    if i > 0 && j > 0 {
      CandidateDigits(name, i);
      CandidateDigits(name, j);
      if Decimal.Print(i) == Decimal.Print(j) {
        Decimal.PrintInjective(i, j);
      }
    }
  }

  ghost function FirstCandidates(name: string, n: nat): set<string> {
    set i | 0 <= i < n :: Candidate(name, i)
  }

  lemma {:induction false} FirstCandidatesSize(name: string, n: nat)
    ensures |FirstCandidates(name, n)| == n
  {
    if n > 0 {
      FirstCandidatesSize(name, n - 1);
      FirstCandidatesStep(name, n - 1);
    }
  }

  lemma FirstCandidatesStep(name: string, n: nat)
    ensures FirstCandidates(name, n + 1) == FirstCandidates(name, n) + {Candidate(name, n)}
    ensures Candidate(name, n) !in FirstCandidates(name, n)
  {
    forall i: nat | i < n
      ensures Candidate(name, i) != Candidate(name, n)
    {
      CandidatesDiffer(name, i, n);
    }
  }

  /** A finite directory cannot take more candidates than it has entries. */
  lemma TakenBound(dir: Dir, name: string, n: nat)
    requires forall i :: 0 <= i < n ==> Candidate(name, i) in dir
    ensures n <= |dir|
  {
    FirstCandidatesSize(name, n);
    SubsetSize(FirstCandidates(name, n), dir.Keys);
    assert |dir.Keys| == |dir|;
  }

  /** Index `i` is the least free one. */
  ghost predicate IsLeastFree(dir: Dir, name: string, i: nat) {
    Candidate(name, i) !in dir && forall j :: 0 <= j < i ==> Candidate(name, j) in dir
  }

  /** The search from index `i` on. */
  ghost function FreeFrom(dir: Dir, name: string, i: nat): (r: nat)
    requires forall j :: 0 <= j < i ==> Candidate(name, j) in dir
    ensures IsLeastFree(dir, name, r) && i <= r <= |dir|
    decreases |dir| + 1 - i
  {
    TakenBound(dir, name, i);
    if Candidate(name, i) !in dir then i else FreeFrom(dir, name, i + 1)
  }

  /** The name a finished transfer gets. */
  ghost function Free(dir: Dir, name: string): string {
    Candidate(name, FreeFrom(dir, name, 0))
  }

  lemma LeastFreeUnique(dir: Dir, name: string, i: nat, j: nat)
    requires IsLeastFree(dir, name, i) && IsLeastFree(dir, name, j)
    ensures i == j
  {
  }

  /**
   * `unique_dest_path`: the candidate with the least free index, found within one more try than
   * the directory has entries.
   */
  method UniqueDestPath(dir: Dir, name: string) returns (dest: string, tries: nat)
    ensures dest == Free(dir, name) && dest !in dir
    ensures 1 <= tries <= |dir| + 1
    ensures dest == Candidate(name, tries - 1) && IsLeastFree(dir, name, tries - 1)
  {
    if name !in dir {
      LeastFreeUnique(dir, name, 0, FreeFrom(dir, name, 0));
      return name, 1;
    }
    var stem, suffix := Stem(name), Suffix(name);
    var i := 1;
    TakenBound(dir, name, 1);
    while true
      invariant 1 <= i <= |dir|
      invariant forall j :: 0 <= j < i ==> Candidate(name, j) in dir
      decreases |dir| - i
    {
      dest := stem + " (" + Decimal.Print(i) + ")" + suffix;
      assert dest == Candidate(name, i);
      if dest !in dir {
        LeastFreeUnique(dir, name, i, FreeFrom(dir, name, 0));
        return dest, i + 1;
      }
      i := i + 1;
      TakenBound(dir, name, i);
    }
  }
}
