/** Files pushed by the peer (native/crates/engine/src/transfer.rs, native/crates/protocol/src/transfer.rs). */
module Transfer {
  import opened Common

  const MAX_FILE_BYTES: nat := 2 * 1024 * 1024 * 1024

  // ---- File names --------------------------------------------------------

  /** Unicode's control and white-space characters. */
  datatype Chars = Chars(control: char -> bool, white: char -> bool)

  predicate Separator(c: char) {
    c == '/' || c == '\\' || c == ':'
  }

  /** Behind the last separator. */
  function LastPart(raw: string): (r: string)
    ensures forall i :: 0 <= i < |r| ==> !Separator(r[i])
    ensures |r| <= |raw|
  {
    if raw == [] then []
    else
      var rest := LastPart(raw[1..]);
      if |rest| < |raw| - 1 || Separator(raw[0]) then rest else [raw[0]] + rest
  }

  function Cleaned(chars: Chars, s: string): (r: string)
    ensures forall i :: 0 <= i < |r| ==> r[i] in s
  {
    if s == [] then []
    else
      var rest := Cleaned(chars, s[1..]);
      if chars.control(s[0]) || s[0] in "<>\"|?*" then rest else [s[0]] + rest
  }

  /** `s` without leading and trailing characters that satisfy `drop`. */
  function Trimmed(s: string, drop: char -> bool): (r: string)
    ensures forall i :: 0 <= i < |r| ==> r[i] in s
    decreases |s|
  {
    if s == [] then []
    else if drop(s[0]) then Trimmed(s[1..], drop)
    else if drop(s[|s| - 1]) then Trimmed(s[..|s| - 1], drop)
    else s
  }

  const RESERVED: set<string> :=
    {"CON", "PRN", "AUX", "NUL", "COM1", "COM2", "COM3", "COM4", "COM5", "COM6", "COM7", "COM8",
     "COM9", "LPT1", "LPT2", "LPT3", "LPT4", "LPT5", "LPT6", "LPT7", "LPT8", "LPT9"}

  function Upper(c: char): char {
    if 'a' <= c <= 'z' then (c as int - 32) as char else c
  }

  /** What stands before the first dot, in upper case. */
  function Device(s: string): string {
    if s == [] || s[0] == '.' then [] else [Upper(s[0])] + Device(s[1..])
  }

  /** `sanitize_file_name` */
  function Sanitized(chars: Chars, raw: string): Option<string> {
    var cleaned := Cleaned(chars, LastPart(raw));
    var name := Trimmed(Trimmed(Trimmed(cleaned, chars.white), c => c == '.'), chars.white);
    if name == "" || name == ".." || name == "." then None
    else if Device(name) in RESERVED then Some("_" + name)
    else Some(if |name| > 180 then name[..180] else name)
  }

  /** A direct child of the folder it is joined to. */
  predicate Bare(name: string) {
    && name != "" && name != "." && name != ".."
    && forall i :: 0 <= i < |name| ==> !Separator(name[i])
  }

  lemma SanitizedIsBare(chars: Chars, raw: string)
    ensures Sanitized(chars, raw).Some? ==> Bare(Sanitized(chars, raw).value)
  {
    hide LastPart, Cleaned, Trimmed, Device;
    var base := LastPart(raw);
    var cleaned := Cleaned(chars, base);
    var a := Trimmed(cleaned, chars.white);
    var b := Trimmed(a, c => c == '.');
    var name := Trimmed(b, chars.white);
    forall i | 0 <= i < |name|
      ensures !Separator(name[i])
    {
      assert name[i] in b;
      assert name[i] in a;
      assert name[i] in cleaned;
      assert name[i] in base;
    }
    if name != "" && name != "." && name != ".." {
      UnderscoreIsBare(name);
    }
  }

  lemma UnderscoreIsBare(name: string)
    requires Bare(name)
    ensures Bare("_" + name) && (|name| > 180 ==> Bare(name[..180]))
  {
    var t := "_" + name;
    assert t[0] == '_';
    forall i | 0 <= i < |t|
      ensures !Separator(t[i])
    {
      assert i > 0 ==> t[i] == name[i - 1];
    }
  }

  // ---- A free name -------------------------------------------------------

  function Digit(n: nat): char
    requires n < 10
  {
    "0123456789"[n]
  }

  function Decimal(n: nat): (s: string)
    ensures s != []
  {
    if n < 10 then [Digit(n)] else Decimal(n / 10) + [Digit(n % 10)]
  }

  lemma {:induction false} DecimalInjective(n: nat, m: nat)
    requires Decimal(n) == Decimal(m)
    ensures n == m
  {
    var s := Decimal(n);
    assert s[|s| - 1] == Digit(n % 10) && s[|s| - 1] == Digit(m % 10);
    if n >= 10 && m >= 10 {
      assert s[..|s| - 1] == Decimal(n / 10) && s[..|s| - 1] == Decimal(m / 10);
      DecimalInjective(n / 10, m / 10);
    }
  }

  function LastDot(name: string): (r: Option<nat>)
    ensures r.Some? ==> r.value < |name|
  {
    if name == [] then None
    else if name[|name| - 1] == '.' then Some(|name| - 1)
    else LastDot(name[..|name| - 1])
  }

  /** Name and extension; a leading dot starts no extension. */
  function Parts(name: string): (p: (string, string))
    ensures p.0 + p.1 == name
  {
    match LastDot(name)
    case Some(i) => if i > 0 then (name[..i], name[i..]) else (name, "")
    case None => (name, "")
  }

  function Tagged(name: string, tag: string): string {
    Parts(name).0 + " (" + tag + ")" + Parts(name).1
  }

  /** The names tried in turn: the name itself, then `(2)`, `(3)` and so on. */
  function Candidate(name: string, n: nat): string {
    if n < 2 then name else Tagged(name, Decimal(n))
  }

  datatype Entry = File(bytes: seq<byte>) | Directory

  type Files = map<string, Entry>

  function FirstFree(files: Files, name: string, n: nat): string
    requires n <= 10_000
    decreases 10_000 - n
  {
    if n == 10_000 then Tagged(name, "dup")
    else if Candidate(name, n) !in files then Candidate(name, n)
    else FirstFree(files, name, n + 1)
  }

  /** `unique_path` */
  function UniquePath(files: Files, name: string): string {
    FirstFree(files, name, 1)
  }

  method FindUniquePath(files: Files, name: string) returns (path: string)
    ensures path == UniquePath(files, name)
  {
    var candidate := name;
    if candidate !in files {
      return candidate;
    }
    var (stem, ext) := Parts(name);
    for n := 2 to 10_000
      invariant FirstFree(files, name, 1) == FirstFree(files, name, n)
    {
      candidate := stem + " (" + Decimal(n) + ")" + ext;
      if candidate !in files {
        return candidate;
      }
    }
    path := stem + " (dup)" + ext;
    assert " (" + "dup" + ")" == " (dup)";
    assert stem + " (" + "dup" + ")" + ext == stem + (" (" + "dup" + ")") + ext;
  }

  /** One of the ten thousand names is free. */
  ghost predicate Roomy(files: Files, name: string) {
    Tagged(name, "dup") !in files || exists n: nat :: 1 <= n < 10_000 && Candidate(name, n) !in files
  }

  /** The chosen name is free exactly if one of the names it chooses from is. */
  lemma {:induction false} FreeIfRoomy(files: Files, name: string, n: nat)
    requires 1 <= n <= 10_000
    ensures FirstFree(files, name, n) !in files <==>
            (Tagged(name, "dup") !in files || exists m: nat :: n <= m < 10_000 && Candidate(name, m) !in files)
    decreases 10_000 - n
  {
    hide Candidate, Tagged;
    if n < 10_000 {
      FreeIfRoomy(files, name, n + 1);
      if Candidate(name, n) in files {
        forall m: nat | n <= m < 10_000 && Candidate(name, m) !in files
          ensures n + 1 <= m
        {
        }
      }
    }
  }

  lemma CandidatesDiffer(name: string, n: nat, m: nat)
    requires 1 <= n && 1 <= m && Candidate(name, n) == Candidate(name, m)
    ensures n == m
  {
    hide Decimal, Parts;
    if n >= 2 && m >= 2 {
      var (stem, ext) := Parts(name);
      SameMiddle(stem + " (", Decimal(n), Decimal(m), ")" + ext);
      assert Tagged(name, Decimal(n)) == stem + " (" + Decimal(n) + (")" + ext);
      assert Tagged(name, Decimal(m)) == stem + " (" + Decimal(m) + (")" + ext);
      DecimalInjective(n, m);
    } else if n >= 2 {
      TaggedIsLonger(name, Decimal(n));
    } else if m >= 2 {
      TaggedIsLonger(name, Decimal(m));
    }
  }

  lemma TaggedIsLonger(name: string, tag: string)
    ensures |Tagged(name, tag)| > |name|
  {
    assert |name| == |Parts(name).0| + |Parts(name).1|;
  }

  lemma SameMiddle(a: string, b: string, c: string, d: string)
    ensures a + b + d == a + c + d ==> b == c
  {
    if a + b + d == a + c + d {
      assert |b| == |c|;
      assert b == (a + b + d)[|a|..|a| + |b|];
      assert c == (a + c + d)[|a|..|a| + |c|];
    }
  }

  /** The first `n` candidates. */
  function Candidates(name: string, n: nat): set<string> {
    if n == 0 then {} else Candidates(name, n - 1) + {Candidate(name, n)}
  }

  /** They are `n` different names. */
  lemma {:induction false} CandidatesCount(name: string, n: nat)
    ensures |Candidates(name, n)| == n
    ensures forall s :: s in Candidates(name, n) ==> exists k: nat :: 1 <= k <= n && s == Candidate(name, k)
  {
    hide Candidate;
    if n > 0 {
      CandidatesCount(name, n - 1);
      if Candidate(name, n) in Candidates(name, n - 1) {
        var k: nat :| 1 <= k <= n - 1 && Candidate(name, n) == Candidate(name, k);
        CandidatesDiffer(name, n, k);
      }
    }
  }

  lemma SubsetCount(a: set<string>, b: set<string>)
    requires a <= b
    ensures |a| <= |b|
  {
    assert b == a + (b - a);
  }

  /** With fewer than 9,999 entries in the folder there is a free name, so nothing is overwritten. */
  lemma FewEntriesAreRoomy(files: Files, name: string)
    requires |files| < 9_999
    ensures Roomy(files, name) && UniquePath(files, name) !in files
  {
    hide Candidate, Tagged;
    CandidatesCount(name, 9_999);
    var all := Candidates(name, 9_999);
    if all <= files.Keys {
      SubsetCount(all, files.Keys);
      assert false;
    }
    var s :| s in all && s !in files.Keys;
    var k: nat :| 1 <= k <= 9_999 && s == Candidate(name, k);
    assert Candidate(name, k) !in files;
    FreeIfRoomy(files, name, 1);
  }

  /** Every name tried is as bare as the one asked for. */
  lemma {:induction false} FirstFreeIsBare(files: Files, name: string, n: nat)
    requires Bare(name) && n <= 10_000
    ensures Bare(FirstFree(files, name, n))
    decreases 10_000 - n
  {
    hide Bare, Decimal, Parts;
    if n == 10_000 {
      TaggedIsBare(name, "dup");
    } else {
      DecimalIsBare(n);
      TaggedIsBare(name, Decimal(n));
      FirstFreeIsBare(files, name, n + 1);
    }
  }

  predicate Plain(s: string) {
    forall i :: 0 <= i < |s| ==> !Separator(s[i])
  }

  lemma TaggedIsBare(name: string, tag: string)
    requires Bare(name) && Plain(tag)
    ensures Bare(Tagged(name, tag))
  {
    var (stem, ext) := Parts(name);
    hide Parts;
    assert Plain(stem + ext);
    assert Plain(stem) && Plain(ext) by {
      PlainParts(stem, ext);
    }
    var t := Tagged(name, tag);
    assert t == stem + (" (" + tag + ")") + ext;
    forall i | 0 <= i < |t|
      ensures !Separator(t[i])
    {
    }
  }

  lemma PlainParts(a: string, b: string)
    requires Plain(a + b)
    ensures Plain(a) && Plain(b)
  {
    forall i | 0 <= i < |a|
      ensures !Separator(a[i])
    {
      assert (a + b)[i] == a[i];
    }
    forall i | 0 <= i < |b|
      ensures !Separator(b[i])
    {
      assert (a + b)[|a| + i] == b[i];
    }
  }

  lemma {:induction false} DecimalIsBare(n: nat)
    ensures Plain(Decimal(n))
  {
    if n >= 10 {
      DecimalIsBare(n / 10);
    }
  }
}
