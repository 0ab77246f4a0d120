/**
 * The key sanitiser of `server_backend/app/utils.py`: total string functions
 * that turn user-supplied file names and project identifiers into storage-key
 * segments, and the file-type helper used for the catalog.
 */
module Utils {
  import opened Wrappers
  import opened Text
  import opened PosixPath

  /** The characters a key segment may keep: alphanumerics, `-` and `_`. */
  predicate IsSafe(c: char) {
    IsAlnum(c) || c == '-' || c == '_'
  }

  predicate AllSafe(s: string) {
    forall i :: 0 <= i < |s| ==> IsSafe(s[i])
  }

  predicate AllAlnum(s: string) {
    forall i :: 0 <= i < |s| ==> IsAlnum(s[i])
  }

  predicate AllDigits(s: string) {
    forall i :: 0 <= i < |s| ==> IsDigit(s[i])
  }

  lemma {:induction false} AllSafeSlice(s: string, lo: int, hi: int)
    requires AllSafe(s) && 0 <= lo <= hi <= |s|
    ensures AllSafe(s[lo..hi])
  {
    assert forall k :: 0 <= k < hi - lo ==> s[lo..hi][k] == s[lo + k];
  }

  lemma {:induction false} AllSafeAppend(a: string, b: string)
    requires AllSafe(a) && forall i :: 0 <= i < |b| ==> IsDigit(b[i])
    ensures AllSafe(a + b)
  {
    forall i | 0 <= i < |a + b| ensures IsSafe((a + b)[i]) {
      if i >= |a| { assert (a + b)[i] == b[i - |a|]; }
    }
  }

  /** One-for-one substitution: every character that is not safe becomes `_`. */
  function Substitute(s: string): (r: string)
    ensures |r| == |s| && AllSafe(r)
    ensures forall i :: 0 <= i < |s| ==> r[i] == if IsSafe(s[i]) then s[i] else '_'
  {
    seq(|s|, i requires 0 <= i < |s| => if IsSafe(s[i]) then s[i] else '_')
  }

  /** The alphanumeric characters of `s`, in order. */
  function KeepAlnum(s: string): (r: string)
    ensures |r| <= |s| && AllAlnum(r)
    ensures AllAlnum(s) ==> r == s
    ensures r == [] <==> forall i :: 0 <= i < |s| ==> !IsAlnum(s[i])
  {
    if s == [] then []
    else if IsAlnum(s[0]) then [s[0]] + KeepAlnum(s[1..])
    else
      assert forall i :: 1 <= i < |s| ==> s[1..][i - 1] == s[i];
      KeepAlnum(s[1..])
  }

  /** `KeepAlnum` of one character keeps it exactly when it is alphanumeric. */
  lemma {:induction false} KeepAlnumUnit(c: char)
    ensures KeepAlnum([c]) == if IsAlnum(c) then [c] else []
  {
    assert [c][1..] == [];
  }

  /** `KeepAlnum` distributes over concatenation, so with `KeepAlnumUnit` it
      keeps every alphanumeric of its input, in order, and nothing else. */
  lemma {:induction false} KeepAlnumAppend(a: string, b: string)
    ensures KeepAlnum(a + b) == KeepAlnum(a) + KeepAlnum(b)
  {
    if a == [] {
      assert a + b == b;
    } else {
      assert (a + b)[0] == a[0];
      assert (a + b)[1..] == a[1..] + b;
      KeepAlnumAppend(a[1..], b);
    }
  }

  /** A UTC instant, as read from the clock. */
  datatype Instant = Instant(year: nat, month: nat, day: nat, hour: nat,
                             minute: nat, second: nat, microsecond: nat)

  function Zeros(n: nat): (r: string)
    ensures |r| == n && AllDigits(r)
    ensures forall i :: 0 <= i < n ==> r[i] == '0'
  {
    if n == 0 then [] else ['0'] + Zeros(n - 1)
  }

  /** `n` written in decimal with leading zeros up to `width` digits. */
  function Pad(n: nat, width: nat): (r: string)
    ensures AllDigits(r)
    ensures |r| == if |Dec(n)| < width then width else |Dec(n)|
    ensures EndsWith(r, Dec(n))
    ensures forall i :: 0 <= i < |r| - |Dec(n)| ==> r[i] == '0'
  {
    var d := Dec(n);
    var r := (if |d| < width then Zeros(width - |d|) else []) + d;
    assert r[|r| - |d|..] == d;
    r
  }

  lemma {:induction false} AllDigitsAppend(a: string, b: string)
    requires AllDigits(a) && AllDigits(b)
    ensures AllDigits(a + b)
  {
    forall i | 0 <= i < |a + b| ensures IsDigit((a + b)[i]) {
      if i >= |a| { assert (a + b)[i] == b[i - |a|]; }
    }
  }

  lemma {:induction false} UploadPrefixSafe()
    ensures AllSafe("upload_")
  {
    var u := "upload_";
    forall i | 0 <= i < |u| ensures IsSafe(u[i]) {
      if i < 3 { assert u[i] in {'u', 'p', 'l'}; }
      else { assert u[i] in {'o', 'a', 'd', '_'}; }
    }
  }

  /** `t.strftime('%Y%m%d%H%M%S%f')`. */
  function Stamp(t: Instant): (r: string)
    ensures AllDigits(r) && |r| >= 20
  {
    var date := Pad(t.year, 4) + Pad(t.month, 2);
    AllDigitsAppend(Pad(t.year, 4), Pad(t.month, 2));
    var date' := date + Pad(t.day, 2);
    AllDigitsAppend(date, Pad(t.day, 2));
    var time := Pad(t.hour, 2) + Pad(t.minute, 2);
    AllDigitsAppend(Pad(t.hour, 2), Pad(t.minute, 2));
    var time' := time + Pad(t.second, 2);
    AllDigitsAppend(time, Pad(t.second, 2));
    var time'' := time' + Pad(t.microsecond, 6);
    AllDigitsAppend(time', Pad(t.microsecond, 6));
    AllDigitsAppend(date', time'');
    date' + time''
  }

  /** An instant a UTC clock can report: every field within its calendar range. */
  predicate ValidInstant(t: Instant) {
    && 1 <= t.year <= 9999 && 1 <= t.month <= 12 && 1 <= t.day <= 31
    && t.hour < 24 && t.minute < 60 && t.second < 60 && t.microsecond < 1000000
  }

  function Pow10(k: nat): nat {
    if k == 0 then 1 else 10 * Pow10(k - 1)
  }

  /** A number below `10^w` has at most `w` decimal digits. */
  lemma {:induction false} DecWidth(n: nat, w: nat)
    requires 1 <= w && n < Pow10(w)
    ensures |Dec(n)| <= w
  {
    if n >= 10 {
      assert Pow10(w) == 10 * Pow10(w - 1);
      assert n / 10 < Pow10(w - 1);
      DecWidth(n / 10, w - 1);
    }
  }

  /** Leading zeros do not change the value of a digit string. */
  lemma {:induction false} ParseDecLeadingZeros(k: nat, s: string)
    requires AllDigits(s)
    ensures AllDigits(Zeros(k) + s) && ParseDec(Zeros(k) + s) == ParseDec(s)
  {
    AllDigitsAppend(Zeros(k), s);
    if s == [] {
      assert Zeros(k) + s == Zeros(k);
      ParseDecZeros(k);
    } else {
      var z := Zeros(k) + s;
      assert z[..|z| - 1] == Zeros(k) + s[..|s| - 1];
      assert z[|z| - 1] == s[|s| - 1];
      ParseDecLeadingZeros(k, s[..|s| - 1]);
    }
  }

  lemma {:induction false} ParseDecZeros(k: nat)
    ensures ParseDec(Zeros(k)) == 0
  {
    if k > 0 {
      assert Zeros(k)[..k - 1] == Zeros(k - 1);
      ParseDecZeros(k - 1);
    }
  }

  lemma {:induction false} PadParts(n: nat, w: nat)
    ensures Pad(n, w) == (if |Dec(n)| < w then Zeros(w - |Dec(n)|) else []) + Dec(n)
  {
  }

  /** A field padded to a width it fits in takes exactly that width and reads
      back as its value. */
  lemma {:induction false} PadField(n: nat, w: nat)
    requires 1 <= w && n < Pow10(w)
    ensures |Pad(n, w)| == w && ParseDec(Pad(n, w)) == n
  {
    DecWidth(n, w);
    ParseDecOfDec(n);
    PadParts(n, w);
    if |Dec(n)| < w {
      ParseDecLeadingZeros(w - |Dec(n)|, Dec(n));
    }
  }

  /** The number written by the digits `r[lo..hi]`. */
  function FieldValue(r: string, lo: nat, hi: nat): nat
    requires AllDigits(r) && lo <= hi <= |r|
  {
    assert forall k :: 0 <= k < hi - lo ==> r[lo..hi][k] == r[lo + k];
    ParseDec(r[lo..hi])
  }

  /**
   * The layout of `%Y%m%d%H%M%S%f` for an instant a clock reports: twenty
   * digits, the year in the first four, then month, day, hour, minute and
   * second in two each, and the microseconds in the last six.
   */
  lemma {:induction false} StampFields(t: Instant)
    requires ValidInstant(t)
    ensures var r := Stamp(t);
      && |r| == 20
      && FieldValue(r, 0, 4) == t.year && FieldValue(r, 4, 6) == t.month && FieldValue(r, 6, 8) == t.day
      && FieldValue(r, 8, 10) == t.hour && FieldValue(r, 10, 12) == t.minute
      && FieldValue(r, 12, 14) == t.second && FieldValue(r, 14, 20) == t.microsecond
  {
    Pow10Widths();
    PadField(t.year, 4);
    PadField(t.month, 2);
    PadField(t.day, 2);
    PadField(t.hour, 2);
    PadField(t.minute, 2);
    PadField(t.second, 2);
    PadField(t.microsecond, 6);
    StampParts(t);
    StampFromFields(Stamp(t), Pad(t.year, 4), Pad(t.month, 2), Pad(t.day, 2),
                    Pad(t.hour, 2), Pad(t.minute, 2), Pad(t.second, 2), Pad(t.microsecond, 6));
  }

  lemma {:induction false} Pow10Widths()
    ensures Pow10(2) == 100 && Pow10(4) == 10000 && Pow10(6) == 1000000
  {
  }

  /** Seven digit fields of widths 4, 2, 2, 2, 2, 2, 6, concatenated, read
      back field by field. */
  lemma {:induction false} StampFromFields(r: string, y: string, mo: string, d: string, h: string,
                                           mi: string, se: string, us: string)
    requires AllDigits(y) && AllDigits(mo) && AllDigits(d) && AllDigits(h)
    requires AllDigits(mi) && AllDigits(se) && AllDigits(us)
    requires |y| == 4 && |mo| == 2 && |d| == 2 && |h| == 2 && |mi| == 2 && |se| == 2 && |us| == 6
    requires AllDigits(r) && r == ((y + mo) + d) + (((h + mi) + se) + us)
    ensures |r| == 20
    ensures FieldValue(r, 0, 4) == ParseDec(y) && FieldValue(r, 4, 6) == ParseDec(mo)
    ensures FieldValue(r, 6, 8) == ParseDec(d) && FieldValue(r, 8, 10) == ParseDec(h)
    ensures FieldValue(r, 10, 12) == ParseDec(mi) && FieldValue(r, 12, 14) == ParseDec(se)
    ensures FieldValue(r, 14, 20) == ParseDec(us)
  {
    StampLayout(y, mo, d, h, mi, se, us);
  }

  lemma {:induction false} StampParts(t: Instant)
    ensures Stamp(t) == ((Pad(t.year, 4) + Pad(t.month, 2)) + Pad(t.day, 2))
      + (((Pad(t.hour, 2) + Pad(t.minute, 2)) + Pad(t.second, 2)) + Pad(t.microsecond, 6))
  {
  }

  /** Where each of seven concatenated fields of widths 4, 2, 2, 2, 2, 2, 6 sits. */
  lemma {:induction false} StampLayout(y: string, mo: string, d: string, h: string, mi: string, se: string, us: string)
    requires |y| == 4 && |mo| == 2 && |d| == 2 && |h| == 2 && |mi| == 2 && |se| == 2 && |us| == 6
    ensures var r := ((y + mo) + d) + (((h + mi) + se) + us);
      && |r| == 20 && r[0..4] == y && r[4..6] == mo && r[6..8] == d && r[8..10] == h
      && r[10..12] == mi && r[12..14] == se && r[14..20] == us
  {
    var date := (y + mo) + d;
    var time := ((h + mi) + se) + us;
    var r := date + time;
    assert r[..8] == date && r[8..] == time;
    assert date[..4] == y && date[4..6] == mo && date[6..] == d;
    assert time[..2] == h && time[2..4] == mi && time[4..6] == se && time[6..] == us;
    assert r[0..4] == date[..4];
    assert r[4..6] == date[4..6];
    assert r[6..8] == date[6..];
    assert r[8..10] == time[..2];
    assert r[10..12] == time[2..4];
    assert r[12..14] == time[4..6];
    assert r[14..20] == time[6..];
  }

  /** The base name the sanitiser intends for a name whose base is empty:
      `upload_` followed by the timestamp. */
  function FallbackName(t: Instant): (r: string)
    ensures StartsWith(r, "upload_") && AllDigits(r[7..])
    ensures |r| >= 27 && AllSafe(r)
  {
    var r := "upload_" + Stamp(t);
    assert r[7..] == Stamp(t);
    UploadPrefixSafe();
    AllSafeAppend("upload_", Stamp(t));
    r
  }

  /** The digits after `upload_` are the timestamp of the clock reading. */
  lemma {:induction false} FallbackNameStamp(t: Instant)
    ensures FallbackName(t)[7..] == Stamp(t)
  {
    assert ("upload_" + Stamp(t))[7..] == Stamp(t);
  }

  /** The sanitised base: the substituted base, or the fallback name when the
      base is empty. */
  function SaneBase(filename: string, now: Instant): (r: string)
    ensures r != [] && AllSafe(r)
  {
    var b := Substitute(SplitExt(filename).0);
    if b == [] then FallbackName(now) else b
  }

  /** The sanitised extension: a dot and the alphanumerics of the original
      extension, or nothing when none survive. */
  function SaneExt(filename: string): (r: string)
    ensures r == [] || (|r| >= 2 && r[0] == '.' && AllAlnum(r[1..]))
  {
    var ext := SplitExt(filename).1;
    if ext == [] then []
    else
      var cleaned := "." + (if StartsWith(ext, ".") then KeepAlnum(LStrip(ext, '.')) else "");
      if cleaned == "." then [] else cleaned
  }

  /** The extension's leading dot is its only one, so `lstrip(".")` drops
      exactly that dot. */
  lemma {:induction false} ExtLStrip(filename: string)
    requires SplitExt(filename).1 != []
    ensures var ext := SplitExt(filename).1;
      StartsWith(ext, ".") && LStrip(ext, '.') == ext[1..]
  {
    var ext := SplitExt(filename).1;
    assert ext[..1] == ".";
    assert LStrip(ext, '.') == LStrip(ext[1..], '.');
    assert ext[1..] == [] || ext[1..][0] != '.';
  }

  /** The result of the sanitiser splits back into its base and extension. */
  lemma {:induction false} SplitSanitized(base: string, ext: string)
    requires base != [] && AllSafe(base)
    requires ext == [] || (|ext| >= 2 && ext[0] == '.' && AllAlnum(ext[1..]))
    ensures SplitExt(base + ext) == (base, ext)
    ensures Count(base + ext, '.') == if ext == [] then 0 else 1
  {
    CountAppend(base, ext, '.');
    if ext == [] {
      assert base + ext == base;
      SplitExtNoDot(base);
    } else {
      assert ext == "." + ext[1..];
      assert base + ext == base + "." + ext[1..];
      SplitExtJoined(base, ext[1..]);
      CountAppend(".", ext[1..], '.');
    }
  }

  /**
   * `sanitize_filename` with the fallback base its authors intended: the
   * sanitised base followed by the sanitised extension, which is how the
   * result splits again.
   */
  function SanitizeFilename(filename: string, now: Instant): (r: string)
    ensures SplitExt(r) == (SaneBase(filename, now), SaneExt(filename))
  {
    var base := SaneBase(filename, now);
    var ext := SaneExt(filename);
    SplitSanitized(base, ext);
    base + ext
  }

  /**
   * The result of the sanitiser splits into a non-empty base of safe
   * characters, which is the original base substituted character for
   * character (or the fallback name when that base is empty), and an
   * extension that is empty or a dot followed by exactly the alphanumerics of
   * the original extension.  It holds at most one dot.
   */
  lemma {:induction false} SanitizeFilenameSpec(filename: string, now: Instant)
    ensures var r := SanitizeFilename(filename, now);
      var (b, e) := SplitExt(filename);
      var (rb, re) := SplitExt(r);
      && rb != [] && AllSafe(rb)
      && (b != [] ==> |rb| == |b|)
      && (forall i :: 0 <= i < |b| ==> if IsSafe(b[i]) then rb[i] == b[i] else rb[i] == '_')
      && (b == [] ==> rb == FallbackName(now))
      && (re == [] <==> forall i :: 0 <= i < |e| ==> !IsAlnum(e[i]))
      && (re != [] ==> re[0] == '.' && re[1..] == KeepAlnum(e) && AllAlnum(re[1..]))
      && r != [] && Count(r, '.') <= 1
  {
    SplitSanitized(SaneBase(filename, now), SaneExt(filename));
    SaneExtKeepsAlnum(filename);
  }

  lemma {:induction false} SaneExtKeepsAlnum(filename: string)
    ensures var e := SplitExt(filename).1;
      var re := SaneExt(filename);
      && (re == [] <==> forall i :: 0 <= i < |e| ==> !IsAlnum(e[i]))
      && (re != [] ==> re[1..] == KeepAlnum(e))
  {
    var e := SplitExt(filename).1;
    if e != [] {
      ExtLStrip(filename);
      var k := KeepAlnum(e[1..]);
      assert !IsAlnum(e[0]);
      assert KeepAlnum(e) == k;
      assert SaneExt(filename) == if k == [] then [] else "." + k;
      if k == [] {
        forall i | 0 <= i < |e| ensures !IsAlnum(e[i]) {
          if i > 0 { assert e[1..][i - 1] == e[i]; }
        }
      } else {
        var j :| 0 <= j < |e[1..]| && IsAlnum(e[1..][j]);
        assert e[j + 1] == e[1..][j];
      }
    }
  }

  /** Sanitising a sanitised name changes nothing, whatever the clock says. */
  lemma {:induction false} SanitizeFilenameIdempotent(filename: string, now: Instant, later: Instant)
    ensures SanitizeFilename(SanitizeFilename(filename, now), later) == SanitizeFilename(filename, now)
  {
    var base := SaneBase(filename, now);
    var ext := SaneExt(filename);
    var r := SanitizeFilename(filename, now);
    assert r == base + ext;
    SplitSanitized(base, ext);
    assert Substitute(base) == base;
    if ext != [] {
      ExtLStrip(r);
      assert LStrip(ext, '.') == ext[1..];
      assert "." + ext[1..] == ext;
    }
  }

  /**
   * `sanitize_filename` as written: the fallback calls `datetime.datetime.utc()`,
   * which does not exist, so the call raises exactly when the substituted base
   * is empty, which happens exactly for the empty file name; on every other
   * name it agrees with the intended sanitiser.
   */
  function SanitizeFilenameAsWritten(filename: string): (r: Result<string, string>)
    ensures r.Failure? <==> filename == ""
    ensures r.Success? ==> forall now :: r.value == SanitizeFilename(filename, now)
  {
    SplitExtBaseEmpty(filename);
    var b := Substitute(SplitExt(filename).0);
    if b == [] then Failure("AttributeError: type object 'datetime.datetime' has no attribute 'utc'")
    else Success(b + SaneExt(filename))
  }

  /** The empty file name makes the sanitiser as written raise where the
      intended one yields the fallback name. */
  lemma {:induction false} EmptyNameRaisesAsWritten(now: Instant)
    ensures SanitizeFilenameAsWritten("").Failure?
    ensures SanitizeFilename("", now) == FallbackName(now)
  {
    assert SplitExt("") == ("", "");
  }

  /** `s.strip()` for ASCII whitespace, leading side. */
  function LStripSpace(s: string): (r: string)
    ensures |r| <= |s|
  {
    if s != [] && IsSpace(s[0]) then LStripSpace(s[1..]) else s
  }

  /** The leading side of `strip()` leaves a suffix that does not start with
      whitespace, and removes only whitespace. */
  lemma {:induction false} LStripSpaceSpec(s: string)
    ensures var r := LStripSpace(s);
      && r == s[|s| - |r|..]
      && (r == [] || !IsSpace(r[0]))
      && (forall i :: 0 <= i < |s| - |r| ==> IsSpace(s[i]))
  {
    if s != [] && IsSpace(s[0]) {
      LStripSpaceSpec(s[1..]);
      var r := LStripSpace(s);
      forall i | 0 < i < |s| - |r| ensures IsSpace(s[i]) {
        assert s[1..][i - 1] == s[i];
      }
      assert s[1..][|s| - 1 - |r|..] == s[|s| - |r|..];
    }
  }

  /** `s.strip()` for ASCII whitespace, trailing side. */
  function RStripSpace(s: string): (r: string)
    ensures |r| <= |s|
  {
    if s != [] && IsSpace(s[|s| - 1]) then RStripSpace(s[..|s| - 1]) else s
  }

  /** The trailing side of `strip()` leaves a prefix that does not end with
      whitespace, and removes only whitespace. */
  lemma {:induction false} RStripSpaceSpec(s: string)
    ensures var r := RStripSpace(s);
      && r == s[..|r|]
      && (r == [] || !IsSpace(r[|r| - 1]))
      && (forall i :: |r| <= i < |s| ==> IsSpace(s[i]))
  {
    if s != [] && IsSpace(s[|s| - 1]) {
      RStripSpaceSpec(s[..|s| - 1]);
      var r := RStripSpace(s);
      forall i | |r| <= i < |s| - 1 ensures IsSpace(s[i]) {
        assert s[..|s| - 1][i] == s[i];
      }
      assert s[..|s| - 1][..|r|] == s[..|r|];
    }
  }

  /** The identifier cleaned as `sanitize_project_id` cleans it, before the
      slash is added: trimmed, substituted, and stripped of `_` at both ends. */
  function CleanProjectId(id: string): string {
    RStrip(LStrip(Substitute(RStripSpace(LStripSpace(id))), '_'), '_')
  }

  /** A character that survives cleaning: an alphanumeric or `-`. */
  predicate IsKept(c: char) {
    IsAlnum(c) || c == '-'
  }

  /** No character of `s` is an alphanumeric or `-`. */
  predicate NoneKept(s: string) {
    forall i :: 0 <= i < |s| ==> !IsKept(s[i])
  }

  /** Trimming whitespace keeps every alphanumeric and `-` of the input. */
  lemma {:induction false} TrimKeepsKept(id: string)
    ensures NoneKept(RStripSpace(LStripSpace(id))) <==> NoneKept(id)
  {
    var l := LStripSpace(id);
    var t := RStripSpace(l);
    LStripSpaceSpec(id);
    RStripSpaceSpec(l);
    var n := |id| - |l|;
    if NoneKept(t) {
      forall i | 0 <= i < |id| ensures !IsKept(id[i]) {
        if i < n {
          assert IsSpace(id[i]);
        } else if i - n < |t| {
          assert id[i] == l[i - n] == t[i - n];
        } else {
          assert id[i] == l[i - n];
        }
      }
    } else {
      var k :| 0 <= k < |t| && IsKept(t[k]);
      assert t[k] == l[k] == id[n + k];
    }
  }

  predicate AllUnderscore(s: string) {
    forall k :: 0 <= k < |s| ==> s[k] == '_'
  }

  /** Substitution leaves nothing but `_` exactly when no character is kept. */
  lemma {:induction false} SubstituteAllUnderscore(t: string)
    ensures AllUnderscore(Substitute(t)) <==> NoneKept(t)
  {
    var s := Substitute(t);
    if AllUnderscore(s) {
      forall k | 0 <= k < |t| ensures !IsKept(t[k]) {
        assert s[k] == '_';
      }
    } else {
      var k :| 0 <= k < |t| && s[k] != '_';
      assert IsSafe(t[k]) && t[k] != '_';
    }
  }

  /** Stripping `_` from both ends of a safe string leaves a safe string
      with no `_` at either end, which is empty exactly when all characters
      are `_`. */
  lemma {:induction false} StripUnderscoreShape(s: string)
    requires AllSafe(s)
    ensures var c := RStrip(LStrip(s, '_'), '_');
      && AllSafe(c)
      && (c == [] <==> AllUnderscore(s))
      && (c != [] ==> c[0] != '_' && c[|c| - 1] != '_')
  {
    var l := LStrip(s, '_');
    var c := RStrip(l, '_');
    LStripSpec(s, '_');
    RStripSpec(l, '_');
    AllSafeSlice(s, |s| - |l|, |s|);
    AllSafeSlice(l, 0, |c|);
    if c == [] {
      assert l == [];
    } else {
      assert l != [];
      assert s[|s| - |l|] == l[0] == c[0];
    }
  }

  /** Cleaning a trimmed identifier: the substituted and stripped text is safe
      with no `_` at either end, and empty exactly when nothing is kept. */
  lemma {:induction false} CleanTrimmedShape(t: string)
    ensures var c := RStrip(LStrip(Substitute(t), '_'), '_');
      && AllSafe(c)
      && (c == [] <==> NoneKept(t))
      && (c != [] ==> c[0] != '_' && c[|c| - 1] != '_')
  {
    SubstituteAllUnderscore(t);
    StripUnderscoreShape(Substitute(t));
  }

  /** The cleaned identifier is empty exactly when the input has no
      alphanumeric and no `-`; otherwise it is safe and has no `_` at either end. */
  lemma {:induction false} CleanProjectIdShape(id: string)
    ensures var c := CleanProjectId(id);
      && AllSafe(c)
      && (c == [] <==> NoneKept(id))
      && (c != [] ==> c[0] != '_' && c[|c| - 1] != '_')
  {
    TrimKeepsKept(id);
    CleanTrimmedShape(RStripSpace(LStripSpace(id)));
  }

  /** A cleaned identifier is left as it is by cleaning. */
  lemma {:induction false} CleanProjectIdFixpoint(c: string)
    requires c != [] && AllSafe(c) && c[0] != '_' && c[|c| - 1] != '_'
    ensures CleanProjectId(c) == c
  {
    assert LStripSpace(c) == c;
    assert RStripSpace(c) == c;
    assert Substitute(c) == c;
    assert LStrip(c, '_') == c;
  }

  /**
   * `sanitize_project_id`: `""` for `None`, for the empty string and for any
   * input without an alphanumeric or `-` (blank, `"!!!"`, `"___"`); otherwise
   * the cleaned identifier followed by exactly one `/`, where the cleaned
   * identifier is made of safe characters and neither starts nor ends with `_`.
   */
  function SanitizeProjectId(projectId: Option<string>): (r: string)
    ensures r == [] <==> (projectId.None? || NoneKept(projectId.value))
    ensures r != [] ==>
      |r| >= 2 && r[|r| - 1] == '/' && AllSafe(r[..|r| - 1]) && r[0] != '_' && r[|r| - 2] != '_'
  {
    if projectId.None? || projectId.value == [] then []
    else
      var cleaned := CleanProjectId(projectId.value);
      CleanProjectIdShape(projectId.value);
      if cleaned != [] then
        assert (cleaned + "/")[..|cleaned|] == cleaned;
        cleaned + "/"
      else []
  }

  /** A non-empty prefix is its cleaned identifier followed by the slash. */
  lemma {:induction false} PrefixParts(r: string)
    requires |r| >= 2 && r[|r| - 1] == '/' && AllSafe(r[..|r| - 1]) && r[0] != '_' && r[|r| - 2] != '_'
    ensures var c := r[..|r| - 1];
      c != [] && AllSafe(c) && c[0] != '_' && c[|c| - 1] != '_' && c + "/" == r
  {
    assert r[..|r| - 1] + r[|r| - 1..] == r;
  }

  /** A cleaned identifier sanitises to itself followed by the slash. */
  lemma {:induction false} SanitizeCleanedProjectId(c: string)
    requires c != [] && AllSafe(c) && c[0] != '_' && c[|c| - 1] != '_'
    ensures SanitizeProjectId(Some(c)) == c + "/"
  {
    CleanProjectIdFixpoint(c);
  }

  /** Sanitising the cleaned identifier again gives the same prefix. */
  lemma {:induction false} SanitizeProjectIdStable(projectId: Option<string>)
    requires SanitizeProjectId(projectId) != []
    ensures var r := SanitizeProjectId(projectId);
      SanitizeProjectId(Some(r[..|r| - 1])) == r
  {
    var r := SanitizeProjectId(projectId);
    PrefixParts(r);
    SanitizeCleanedProjectId(r[..|r| - 1]);
  }

  /**
   * `get_file_extension`: the text after the extension's dot, upper-cased,
   * when `splitext` finds an extension (so `"a."` gives `""`), and `UNKNOWN`
   * when it finds none (`"README"`, `".bashrc"`).
   */
  function GetFileExtension(filename: string): (r: string)
    ensures var e := SplitExt(filename).1;
      && (e == [] ==> r == "UNKNOWN")
      && (e != [] ==> |r| == |e| - 1 && forall i :: 0 <= i < |r| ==> r[i] == Upper(e[i + 1]))
    ensures SplitExt(filename).1 != [] ==> forall i :: 0 <= i < |r| ==> r[i] != '.'
  {
    var e := SplitExt(filename).1;
    if e != [] then
      ExtLStrip(filename);
      UpperString(LStrip(e, '.'))
    else "UNKNOWN"
  }

  /** When the original extension is alphanumeric, the catalog's file type is
      the upper-cased extension of the stored key's name. */
  lemma {:induction false} FileTypeOfSanitizedName(filename: string, now: Instant)
    requires var e := SplitExt(filename).1; |e| >= 2 && AllAlnum(e[1..])
    ensures GetFileExtension(SanitizeFilename(filename, now)) == GetFileExtension(filename)
  {
    var e := SplitExt(filename).1;
    var r := SanitizeFilename(filename, now);
    var re := SplitExt(r).1;
    SanitizeFilenameSpec(filename, now);
    assert KeepAlnum(e) == KeepAlnum(e[1..]) == e[1..];
    assert re[1..] == e[1..];
  }

  /** Worked cases of `sanitize_project_id`. */
  lemma {:induction false} ProjectIdExamples()
    ensures SanitizeProjectId(Some(" My Proj ")) == "My_Proj/"
  {
    assert "My_Proj" + "/" == "My_Proj/";
    CleanSpacedProjectId();
  }

  lemma {:induction false} CleanSpacedProjectId()
    ensures CleanProjectId(" My Proj ") == "My_Proj"
  {
    TrimSpacedProjectId();
    assert Substitute("My Proj") == "My_Proj";
    assert LStrip("My_Proj", '_') == "My_Proj";
    assert RStrip("My_Proj", '_') == "My_Proj";
  }

  lemma {:induction false} TrimSpacedProjectId()
    ensures RStripSpace(LStripSpace(" My Proj ")) == "My Proj"
  {
    assert LStripSpace(" My Proj ") == "My Proj ";
    assert RStripSpace("My Proj ") == "My Proj";
  }

  /** A project id with no character kept, or none at all, gives no prefix. */
  lemma {:induction false} BlankProjectIdExamples()
    ensures SanitizeProjectId(Some("   ")) == ""
    ensures SanitizeProjectId(Some("!!!")) == ""
    ensures SanitizeProjectId(Some("")) == ""
    ensures SanitizeProjectId(None) == ""
  {
    assert NoneKept("   ") && NoneKept("!!!");
  }

  /** Worked cases of `get_file_extension`: the last extension only, upper-cased. */
  lemma {:induction false} FileExtensionExamples()
    ensures GetFileExtension("notes.MATLAB.mat") == "MAT"
  {
    SplitExtAt("notes.MATLAB.mat", 12);
    assert SplitExt("notes.MATLAB.mat").1 == ".mat";
  }

  lemma {:induction false} TiffExtensionExample()
    ensures GetFileExtension("scan.tiff") == "TIFF"
  {
    SplitExtAt("scan.tiff", 4);
    assert SplitExt("scan.tiff").1 == ".tiff";
  }

  /** Worked cases of `get_file_extension` without an extension, and with an
      empty one. */
  lemma {:induction false} NoExtensionExamples()
    ensures GetFileExtension("README") == "UNKNOWN"
    ensures GetFileExtension(".bashrc") == "UNKNOWN"
  {
    SplitExtNoDot("README");
    var b := ".bashrc";
    assert b[0] == '.' && b[1] == 'b' && b[2] == 'a' && b[3] == 's' && b[4] == 'h' && b[5] == 'r' && b[6] == 'c';
    assert RFind(b, '.') == 0;
  }

  /** A name ending in a dot has an empty extension, which upper-cases to
      the empty string rather than `UNKNOWN`. */
  lemma {:induction false} EmptyExtensionExample()
    ensures GetFileExtension("a.") == ""
  {
    assert RFind("a.", '.') == 1;
    SplitExtAt("a.", 1);
  }

  /** The sanitiser's result is its two sanitised parts, whatever they are. */
  lemma {:induction false} SanitizeFilenameOf(filename: string, now: Instant, base: string, ext: string)
    requires SaneBase(filename, now) == base && SaneExt(filename) == ext
    ensures SanitizeFilename(filename, now) == base + ext
  {
  }

  /** A name with spaces keeps its extension and has the spaces replaced. */
  lemma {:induction false} SanitizeSpacedName(now: Instant)
    ensures SanitizeFilename("my report.pdf", now) == "my_report.pdf"
  {
    assert "my_report" + ".pdf" == "my_report.pdf";
    SpacedNameParts(now);
    SanitizeFilenameOf("my report.pdf", now, "my_report", ".pdf");
  }

  lemma {:induction false} SpacedNameParts(now: Instant)
    ensures SaneBase("my report.pdf", now) == "my_report"
    ensures SaneExt("my report.pdf") == ".pdf"
  {
    SpacedNameBase(now);
    SpacedNameSuffix();
  }

  lemma {:induction false} SpacedNameBase(now: Instant)
    ensures SaneBase("my report.pdf", now) == "my_report"
  {
    SplitExtAt("my report.pdf", 9);
  }

  lemma {:induction false} SpacedNameSuffix()
    ensures SaneExt("my report.pdf") == ".pdf"
  {
    SplitExtAt("my report.pdf", 9);
    assert LStrip(".pdf", '.') == "pdf";
  }

  /** Only the last extension survives; earlier dots become `_`. */
  lemma {:induction false} SanitizeDoubleExtension(now: Instant)
    ensures SanitizeFilename("data.tar.gz", now) == "data_tar.gz"
  {
    assert "data_tar" + ".gz" == "data_tar.gz";
    DoubleExtensionParts(now);
    SanitizeFilenameOf("data.tar.gz", now, "data_tar", ".gz");
  }

  lemma {:induction false} DoubleExtensionParts(now: Instant)
    ensures SaneBase("data.tar.gz", now) == "data_tar"
    ensures SaneExt("data.tar.gz") == ".gz"
  {
    DoubleExtensionBase(now);
    DoubleExtensionSuffix();
  }

  lemma {:induction false} DoubleExtensionBase(now: Instant)
    ensures SaneBase("data.tar.gz", now) == "data_tar"
  {
    SplitExtAt("data.tar.gz", 8);
  }

  lemma {:induction false} DoubleExtensionSuffix()
    ensures SaneExt("data.tar.gz") == ".gz"
  {
    SplitExtAt("data.tar.gz", 8);
    assert LStrip(".gz", '.') == "gz";
  }

  /** Non-alphanumerics are dropped from the extension. */
  lemma {:induction false} SanitizeOddExtension(now: Instant)
    ensures SanitizeFilename("notes.m@t", now) == "notes.mt"
  {
    assert "notes" + ".mt" == "notes.mt";
    OddExtensionBase(now);
    OddExtensionSuffix();
    SanitizeFilenameOf("notes.m@t", now, "notes", ".mt");
  }

  lemma {:induction false} OddExtensionBase(now: Instant)
    ensures SaneBase("notes.m@t", now) == "notes"
  {
    SplitExtAt("notes.m@t", 5);
    assert Substitute("notes") == "notes";
  }

  lemma {:induction false} OddExtensionSuffix()
    ensures SaneExt("notes.m@t") == ".mt"
  {
    SplitExtAt("notes.m@t", 5);
    assert StartsWith(".m@t", ".");
    assert LStrip(".m@t", '.') == "m@t";
    assert KeepAlnum("m@t") == "mt";
  }
}
