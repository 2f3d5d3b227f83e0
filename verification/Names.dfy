/** The names peers send (native/crates/protocol/src/transfer.rs, native/crates/engine/src/transfer.rs). */
module Names {
  import opened Common
  import opened Transfer

  /** Characters no Windows file name may have. */
  predicate Forbidden(c: char) {
    c == '<' || c == '>' || c == '"' || c == '|' || c == '?' || c == '*'
  }

  predicate Separates(c: char) {
    c == '/' || c == '\\' || c == ':'
  }

  predicate AllAre(s: string, p: char -> bool) {
    forall i :: 0 <= i < |s| ==> p(s[i])
  }

  /** A name as people write it: no odd characters, and neither blanks nor dots at its ends. */
  predicate Tidy(chars: Chars, s: string) {
    && s != []
    && (forall i :: 0 <= i < |s| ==> !chars.control(s[i]) && !Forbidden(s[i]) && !Separates(s[i]))
    && !chars.white(s[0]) && s[0] != '.' && !chars.white(s[|s| - 1]) && s[|s| - 1] != '.'
  }

  // ---- The last component ------------------------------------------------

  lemma {:induction false} LastPartWhole(base: string)
    requires forall i :: 0 <= i < |base| ==> !Separates(base[i])
    ensures LastPart(base) == base
  {
    if base != [] {
      LastPartWhole(base[1..]);
      assert base == [base[0]] + base[1..];
    }
  }

  /** Whatever folders stand in front of it. */
  lemma {:induction false} LastPartIs(dir: string, base: string)
    requires forall i :: 0 <= i < |base| ==> !Separates(base[i])
    requires dir == [] || Separates(dir[|dir| - 1])
    ensures LastPart(dir + base) == base
  {
    if dir == [] {
      assert dir + base == base;
      LastPartWhole(base);
    } else {
      assert (dir + base)[1..] == dir[1..] + base;
      LastPartIs(dir[1..], base);
    }
  }

  // ---- Odd characters ----------------------------------------------------

  lemma {:induction false} CleanedConcat(chars: Chars, s: string, t: string)
    ensures Cleaned(chars, s + t) == Cleaned(chars, s) + Cleaned(chars, t)
  {
    if s == [] {
      assert s + t == t;
    } else {
      assert (s + t)[1..] == s[1..] + t;
      CleanedConcat(chars, s[1..], t);
    }
  }

  lemma {:induction false} CleanStays(chars: Chars, s: string)
    requires forall i :: 0 <= i < |s| ==> !chars.control(s[i]) && !Forbidden(s[i])
    ensures Cleaned(chars, s) == s
  {
    if s != [] {
      CleanStays(chars, s[1..]);
      assert s == [s[0]] + s[1..];
      assert s[0] !in "<>\"|?*";
    }
  }

  lemma {:induction false} CleanedIsClean(chars: Chars, s: string, i: nat)
    requires i < |Cleaned(chars, s)|
    ensures !chars.control(Cleaned(chars, s)[i]) && !Forbidden(Cleaned(chars, s)[i])
  {
    var rest := Cleaned(chars, s[1..]);
    if chars.control(s[0]) || s[0] in "<>\"|?*" {
      CleanedIsClean(chars, s[1..], i);
    } else if i > 0 {
      CleanedIsClean(chars, s[1..], i - 1);
    } else {
      assert "<>\"|?*" == ['<', '>', '"', '|', '?', '*'];
    }
  }

  // ---- The ends ----------------------------------------------------------

  /** Nothing at the ends of `s` is to be dropped. */
  predicate Bordered(s: string, drop: char -> bool) {
    s == [] || (!drop(s[0]) && !drop(s[|s| - 1]))
  }

  lemma {:induction false} TrimmedAround(a: string, s: string, b: string, drop: char -> bool)
    requires AllAre(a, drop) && AllAre(b, drop) && Bordered(s, drop)
    ensures Trimmed(a + s + b, drop) == s
    decreases |a| + |b|
  {
    var all := a + s + b;
    if a != [] {
      assert all[1..] == a[1..] + s + b;
      TrimmedAround(a[1..], s, b, drop);
    } else if s == [] {
      assert all == b;
      if b != [] {
        assert b[1..] == a + s + b[1..];
        TrimmedAround(a, s, b[1..], drop);
      }
    } else if b != [] {
      assert all[..|all| - 1] == a + s + b[..|b| - 1];
      TrimmedAround(a, s, b[..|b| - 1], drop);
    } else {
      assert all == s;
    }
  }

  lemma {:induction false} TrimmedBordered(s: string, drop: char -> bool)
    ensures Bordered(Trimmed(s, drop), drop)
    decreases |s|
  {
    if s != [] {
      if drop(s[0]) {
        TrimmedBordered(s[1..], drop);
      } else if drop(s[|s| - 1]) {
        TrimmedBordered(s[..|s| - 1], drop);
      }
    }
  }

  // ---- Device names ------------------------------------------------------

  predicate SameLetter(c: char, upper: char) {
    c == upper || ('A' <= upper <= 'Z' && c as int == upper as int + 32)
  }

  /** Windows takes `s` for the device `w`, whatever comes behind a dot. */
  predicate Means(s: string, w: string) {
    && |s| >= |w| && (forall i :: 0 <= i < |w| ==> SameLetter(s[i], w[i]))
    && (|s| > |w| ==> s[|w|] == '.')
  }

  /** The names Windows keeps for its devices. */
  const DEVICES: set<string> :=
    {"CON", "PRN", "AUX", "NUL", "COM1", "COM2", "COM3", "COM4", "COM5", "COM6", "COM7", "COM8",
     "COM9", "LPT1", "LPT2", "LPT3", "LPT4", "LPT5", "LPT6", "LPT7", "LPT8", "LPT9"}

  predicate IsDevice(s: string) {
    exists w :: w in DEVICES && Means(s, w)
  }

  /** In upper case and without a dot. */
  predicate Plain(w: string) {
    forall i :: 0 <= i < |w| ==> w[i] != '.' && !('a' <= w[i] <= 'z')
  }

  lemma UpperIs(c: char, upper: char)
    requires !('a' <= upper <= 'z')
    ensures Upper(c) == upper <==> SameLetter(c, upper)
  {
  }

  lemma {:induction false} DeviceIs(s: string, w: string)
    requires Plain(w)
    ensures Device(s) == w <==> Means(s, w)
  {
    if s != [] && s[0] != '.' && w != [] {
      DeviceIs(s[1..], w[1..]);
      UpperIs(s[0], w[0]);
      assert Device(s) == w <==> Upper(s[0]) == w[0] && Device(s[1..]) == w[1..];
      assert Means(s, w) <==> SameLetter(s[0], w[0]) && Means(s[1..], w[1..]) by {
        MeansTail(s, w);
      }
    } else {
      assert w == [] ==> (Means(s, w) <==> s == [] || s[0] == '.');
    }
  }

  lemma MeansTail(s: string, w: string)
    requires s != [] && w != []
    ensures Means(s, w) <==> SameLetter(s[0], w[0]) && Means(s[1..], w[1..])
  {
    if SameLetter(s[0], w[0]) && Means(s[1..], w[1..]) {
      forall i | 0 <= i < |w|
        ensures SameLetter(s[i], w[i])
      {
        assert i > 0 ==> s[i] == s[1..][i - 1] && w[i] == w[1..][i - 1];
      }
    }
    if Means(s, w) {
      forall i | 0 <= i < |w[1..]|
        ensures SameLetter(s[1..][i], w[1..][i])
      {
        assert SameLetter(s[i + 1], w[i + 1]);
      }
    }
  }

  lemma DevicesArePlain(w: string)
    requires w in DEVICES
    ensures Plain(w)
  {
  }

  lemma DeviceExact(s: string)
    ensures Device(s) in RESERVED <==> IsDevice(s)
  {
    hide Device, Means, Plain;
    assert RESERVED == DEVICES;
    forall w | w in DEVICES
      ensures Device(s) == w <==> Means(s, w)
    {
      DevicesArePlain(w);
      DeviceIs(s, w);
    }
  }

  // ---- Whole names -------------------------------------------------------

  /** What the file is called: an underscore keeps it from being a device, and 180 characters are enough. */
  function Kept(s: string): string {
    if IsDevice(s) then "_" + s else if |s| > 180 then s[..180] else s
  }

  /** Blanks, then dots and, if there are any, blanks again, around a name. */
  datatype Ends = Ends(blanks: string, dots: string, inner: string)

  predicate Blank(chars: Chars, c: char) {
    chars.white(c) && !chars.control(c) && !Forbidden(c) && !Separates(c)
  }

  predicate Loose(chars: Chars, e: Ends) {
    && (forall i :: 0 <= i < |e.blanks| ==> Blank(chars, e.blanks[i]))
    && (forall i :: 0 <= i < |e.dots| ==> e.dots[i] == '.')
    && (forall i :: 0 <= i < |e.inner| ==> Blank(chars, e.inner[i]))
    && (e.dots == [] ==> e.inner == [])
  }

  function Padded(a: Ends, s: string, b: Ends): string {
    a.blanks + (a.dots + (a.inner + s + b.inner) + b.dots) + b.blanks
  }

  lemma PaddedIsClean(chars: Chars, a: Ends, s: string, b: Ends, i: nat)
    requires Loose(chars, a) && Loose(chars, b) && Tidy(chars, s) && !chars.control('.')
    requires i < |Padded(a, s, b)|
    ensures var c := Padded(a, s, b)[i]; !chars.control(c) && !Forbidden(c) && !Separates(c)
  {
    hide Forbidden, Separates;
    var c := Padded(a, s, b)[i];
    assert c in a.blanks || c in a.dots || c in a.inner || c in s || c in b.inner || c in b.dots || c in b.blanks;
    DotIsFine();
  }

  lemma DotIsFine()
    ensures !Forbidden('.') && !Separates('.')
  {
  }

  lemma TrimsPadded(chars: Chars, a: Ends, s: string, b: Ends)
    requires Loose(chars, a) && Loose(chars, b) && Tidy(chars, s) && !chars.white('.')
    ensures Trimmed(Trimmed(Trimmed(Padded(a, s, b), chars.white), c => c == '.'), chars.white) == s
  {
    hide Trimmed;
    var core := a.inner + s + b.inner;
    TrimmedAround(a.blanks, a.dots + core + b.dots, b.blanks, chars.white);
    TrimmedAround(a.dots, core, b.dots, c => c == '.');
    TrimmedAround(a.inner, s, b.inner, chars.white);
  }

  /**
   * A tidy name is kept whatever folders stand before it and whatever blanks and dots surround it; only the
   * name of a device gets an underscore, and a long name is cut.
   */
  lemma NameIsKept(chars: Chars, dir: string, a: Ends, s: string, b: Ends)
    requires dir == [] || Separates(dir[|dir| - 1])
    requires Loose(chars, a) && Loose(chars, b) && Tidy(chars, s) && !chars.white('.') && !chars.control('.')
    ensures Sanitized(chars, dir + Padded(a, s, b)) == Some(Kept(s))
  {
    hide Trimmed, Cleaned, LastPart, Device, IsDevice, Padded, Loose;
    var base := Padded(a, s, b);
    forall i | 0 <= i < |base|
      ensures !chars.control(base[i]) && !Forbidden(base[i]) && !Separates(base[i])
    {
      PaddedIsClean(chars, a, s, b, i);
    }
    LastPartIs(dir, base);
    CleanStays(chars, base);
    TrimsPadded(chars, a, s, b);
    DeviceExact(s);
    NotDots(chars, s);
  }

  lemma NotDots(chars: Chars, s: string)
    requires Tidy(chars, s)
    ensures s != "" && s != "." && s != ".."
  {
  }

  // ---- What is never in a name -------------------------------------------

  /** No name has an odd character, no name is a device, and none begins with a blank. */
  lemma NeverOdd(chars: Chars, raw: string, i: nat)
    requires Sanitized(chars, raw).Some? && i < |Sanitized(chars, raw).value|
    requires !chars.control('_')
    ensures var r := Sanitized(chars, raw).value;
            && !chars.control(r[i]) && !Forbidden(r[i]) && !Separates(r[i]) && !IsDevice(r)
            && (r[0] == '_' || !chars.white(r[0]))
  {
    hide Trimmed, Cleaned, LastPart, Device, IsDevice, Separator, Separates, Forbidden;
    SanitizedIsBare(chars, raw);
    var cleaned := Cleaned(chars, LastPart(raw));
    var x := Trimmed(cleaned, chars.white);
    var y := Trimmed(x, c => c == '.');
    var name := Trimmed(y, chars.white);
    TrimmedBordered(y, chars.white);
    DeviceExact(name);
    var r := Sanitized(chars, raw).value;
    SameSeparators(r[i]);
    if Device(name) in RESERVED {
      UnderscoreNoDevice(name);
    } else if |name| > 180 {
      CutNoDevice(name);
    }
    if r[i] in name {
      assert r[i] in y && r[i] in x && r[i] in cleaned;
      var k :| 0 <= k < |cleaned| && cleaned[k] == r[i];
      CleanedIsClean(chars, LastPart(raw), k);
    } else {
      assert r[i] == '_';
      UnderscoreIsFine();
    }
  }

  lemma UnderscoreIsFine()
    ensures !Forbidden('_')
  {
  }

  lemma SameSeparators(c: char)
    ensures Separator(c) == Separates(c)
  {
  }

  lemma UnderscoreNoDevice(s: string)
    ensures !IsDevice("_" + s)
  {
    forall w | w in DEVICES
      ensures !Means("_" + s, w)
    {
      FirstIsLetter(w);
      assert ("_" + s)[0] == '_';
      assert Means("_" + s, w) ==> SameLetter(("_" + s)[0], w[0]);
    }
  }

  lemma FirstIsLetter(w: string)
    requires w in DEVICES
    ensures 3 <= |w| <= 4 && 'A' <= w[0] <= 'Z'
  {
  }

  lemma CutNoDevice(s: string)
    requires |s| > 180 && !IsDevice(s)
    ensures !IsDevice(s[..180])
  {
    forall w | w in DEVICES
      ensures !Means(s[..180], w)
    {
      FirstIsLetter(w);
      assert !Means(s, w);
      assert forall i :: 0 <= i < |w| ==> s[..180][i] == s[i];
      assert s[..180][|w|] == s[|w|];
    }
  }

  /**
   * Names are at most 180 characters long, exactly but for devices with a long extension: a device of
   * 180 characters or more gets one more.
   */
  lemma LengthExact(chars: Chars, raw: string)
    requires Sanitized(chars, raw).Some?
    ensures var r := Sanitized(chars, raw).value;
            |r| > 180 <==> r[0] == '_' && |r| - 1 >= 180 && IsDevice(r[1..])
  {
    hide Trimmed, Cleaned, LastPart, Device, IsDevice;
    var name := Trimmed(Trimmed(Trimmed(Cleaned(chars, LastPart(raw)), chars.white), c => c == '.'), chars.white);
    DeviceExact(name);
    assert ("_" + name)[1..] == name;
  }

  /** The bound does not hold for a device: this name of 204 characters becomes one of 205. */
  lemma LongDevice(chars: Chars)
    requires forall c :: !chars.control(c) && !chars.white(c)
    ensures var raw := "CON." + seq(200, _ => 'x');
            |raw| == 204 && Sanitized(chars, raw) == Some("_" + raw)
  {
    var raw := "CON." + seq(200, _ => 'x');
    var bare := Ends("", "", "");
    assert Means(raw, "CON") && "CON" in DEVICES;
    NameIsKept(chars, "", bare, raw, bare);
    assert "" + Padded(bare, raw, bare) == raw;
  }

  // ---- Numbered names ----------------------------------------------------

  /** A decimal number's value. */
  function Value(s: string): int {
    if s == [] then 0 else 10 * Value(s[..|s| - 1]) + (s[|s| - 1] as int - '0' as int)
  }

  lemma {:induction false} DecimalIsValue(n: nat)
    ensures Value(Decimal(n)) == n && (forall i :: 0 <= i < |Decimal(n)| ==> '0' <= Decimal(n)[i] <= '9')
    ensures n > 0 ==> Decimal(n)[0] != '0'
  {
    hide Value, Digit;
    DigitIs(n % 10);
    if n >= 10 {
      DecimalIsValue(n / 10);
      ValueMore(Decimal(n / 10), Digit(n % 10));
    } else {
      ValueMore([], Digit(n));
      assert [] + [Digit(n)] == [Digit(n)];
    }
  }

  lemma ValueMore(s: string, c: char)
    ensures Value(s + [c]) == 10 * Value(s) + (c as int - '0' as int) && Value([]) == 0
  {
    assert (s + [c])[..|s|] == s;
  }

  lemma DigitIs(d: nat)
    requires d < 10
    ensures Digit(d) as int == '0' as int + d
  {
    assert "0123456789" == ['0', '1', '2', '3', '4', '5', '6', '7', '8', '9'];
  }

  lemma {:induction false} LastDotIs(stem: string, ext: string)
    requires forall i :: 0 <= i < |ext| ==> ext[i] != '.'
    ensures LastDot(stem + "." + ext) == Some(|stem|)
  {
    var s := stem + "." + ext;
    if ext != [] {
      assert s[..|s| - 1] == stem + "." + ext[..|ext| - 1];
      LastDotIs(stem, ext[..|ext| - 1]);
    }
  }

  lemma {:induction false} NoDot(name: string)
    requires forall i :: 0 <= i < |name| ==> name[i] != '.'
    ensures LastDot(name) == None
  {
    if name != [] {
      NoDot(name[..|name| - 1]);
    }
  }

  /** The number goes in front of the extension; a name without one, or with a leading dot only, gets it at its end. */
  lemma NumberedName(stem: string, ext: string, n: nat)
    requires n >= 2 && forall i :: 0 <= i < |ext| ==> ext[i] != '.'
    ensures stem != [] ==> Candidate(stem + "." + ext, n) == stem + " (" + Decimal(n) + ")." + ext
    ensures Candidate("." + ext, n) == "." + ext + " (" + Decimal(n) + ")"
    ensures Candidate(ext, n) == ext + " (" + Decimal(n) + ")"
    ensures Candidate(stem, 1) == stem
  {
    hide Decimal;
    LastDotIs(stem, ext);
    LastDotIs([], ext);
    NoDot(ext);
    assert [] + "." + ext == "." + ext;
    var name := stem + "." + ext;
    assert name[..|stem|] == stem && name[|stem|..] == "." + ext;
    assert stem + " (" + Decimal(n) + ")" + ("." + ext) == stem + " (" + Decimal(n) + ")." + ext;
    assert "." + ext + " (" + Decimal(n) + ")" + "" == "." + ext + " (" + Decimal(n) + ")";
    assert ext + " (" + Decimal(n) + ")" + "" == ext + " (" + Decimal(n) + ")";
  }

  /** The first free one of the numbered names is taken. */
  lemma {:induction false} FirstIsTaken(files: Files, name: string, n: nat, k: nat)
    requires 1 <= n <= k < 10_000 && Candidate(name, k) !in files
    requires forall j: nat :: n <= j < k ==> Candidate(name, j) in files
    ensures FirstFree(files, name, n) == Candidate(name, k)
    decreases k - n
  {
    hide Candidate;
    if n < k {
      FirstIsTaken(files, name, n + 1, k);
    }
  }
}
