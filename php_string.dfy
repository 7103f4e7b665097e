/**
 * The PHP string built-ins the importer relies on: trim, strtolower, explode,
 * pathinfo's extension, and the decimal rendering of integers that sprintf
 * and string concatenation perform. PHP strings are byte strings; a byte is
 * written here as the char with the same code.
 */
module PhpString {

  /** The characters PHP's `trim` strips by default: " \t\n\r\0\x0B". */
  predicate IsTrimChar(c: char)
  {
    c == ' ' || c == '\t' || c == '\n' || c == '\r' || c == '\0' || c == '\U{B}'
  }

  /** How many characters `trim` cuts from the front of `s`. */
  function TrimStart(s: string): (i: nat)
    ensures i <= |s|
    ensures forall k :: 0 <= k < i ==> IsTrimChar(s[k])
    ensures i < |s| ==> !IsTrimChar(s[i])
  {
    if s != [] && IsTrimChar(s[0]) then
      var i := TrimStart(s[1..]) + 1;
      assert forall k :: 1 <= k < i ==> s[k] == s[1..][k - 1];
      i
    else 0
  }

  /** Where the part `trim` keeps ends: everything from here on is trim characters. */
  function TrimEnd(s: string): (j: nat)
    ensures j <= |s|
    ensures forall k :: j <= k < |s| ==> IsTrimChar(s[k])
    ensures j > 0 ==> !IsTrimChar(s[j - 1])
  {
    if s != [] && IsTrimChar(s[|s| - 1]) then TrimEnd(s[..|s| - 1]) else |s|
  }

  /**
   * `trim($s)`: the longest infix of `s` that neither starts nor ends with a
   * trim character; everything cut off is trim characters.
   */
  function Trim(s: string): (r: string)
    ensures TrimmedFrom(s, TrimStart(s), r)
    ensures r != [] ==> !IsTrimChar(r[0]) && !IsTrimChar(r[|r| - 1])
    ensures r == [] <==> forall j :: 0 <= j < |s| ==> IsTrimChar(s[j])
  {
    var i := TrimStart(s);
    if i == |s| then [] else s[i..TrimEnd(s)]
  }

  /** `r` is the infix of `s` at `i`, and everything around it is trim characters. */
  predicate TrimmedFrom(s: string, i: nat, r: string)
  {
    && i + |r| <= |s| && r == s[i..i + |r|]
    && (forall j :: 0 <= j < i ==> IsTrimChar(s[j]))
    && (forall j :: i + |r| <= j < |s| ==> IsTrimChar(s[j]))
  }

  /** Trimming twice is trimming once. */
  lemma TrimIdempotent(s: string)
    ensures Trim(Trim(s)) == Trim(s)
  {
    var t := Trim(s);
    if t != [] {
      TrimUntouched(t);
    }
  }

  /** A string that neither starts nor ends with a trim character is its own trim. */
  lemma TrimUntouched(s: string)
    requires s != [] && !IsTrimChar(s[0]) && !IsTrimChar(s[|s| - 1])
    ensures Trim(s) == s
  {
    assert TrimStart(s) == 0;
    assert TrimEnd(s) == |s|;
  }

  /** A string PHP's `empty()` treats as false: "" and "0". */
  predicate IsFalsyString(s: string)
  {
    s == "" || s == "0"
  }

  /** `strtolower` (ASCII letters only, as in PHP 8.2+). */
  function ToLower(s: string): (r: string)
    ensures |r| == |s|
    ensures forall i :: 0 <= i < |s| ==>
      r[i] == if 'A' <= s[i] <= 'Z' then (s[i] as int + 32) as char else s[i]
  {
    seq(|s|, i requires 0 <= i < |s| =>
      if 'A' <= s[i] <= 'Z' then (s[i] as int + 32) as char else s[i])
  }

  /** Position of the last occurrence of `c` in `s`, or -1. */
  function LastIndexOf(s: string, c: char): (r: int)
    ensures -1 <= r < |s|
    ensures r >= 0 ==> s[r] == c && forall j :: r < j < |s| ==> s[j] != c
    ensures r < 0 ==> c !in s
  {
    if s == [] then -1
    else if s[|s| - 1] == c then |s| - 1
    else LastIndexOf(s[..|s| - 1], c)
  }

  /** Position of the first occurrence of `c` in `s`, or -1 (`strpos`). */
  function FirstIndexOf(s: string, c: char): (r: int)
    ensures -1 <= r < |s|
    ensures r >= 0 ==> s[r] == c && c !in s[..r]
    ensures r < 0 ==> c !in s
  {
    if s == [] then -1
    else if s[0] == c then 0
    else
      var r := FirstIndexOf(s[1..], c);
      if r < 0 then -1 else r + 1
  }

  /** The first `c` in `a + [c] + b` is the one after `a` when `a` has none. */
  lemma FirstIndexOfAfter(a: string, c: char, b: string)
    requires c !in a
    ensures FirstIndexOf(a + [c] + b, c) == |a|
  {
    var s := a + [c] + b;
    assert s[|a|] == c && s[..|a|] == a;
  }

  /** A character missing from the end of a string does not move its last occurrence. */
  lemma LastIndexOfAppend(a: string, b: string, c: char)
    requires c !in b
    ensures LastIndexOf(a + b, c) == LastIndexOf(a, c)
  {
    var r, q := LastIndexOf(a + b, c), LastIndexOf(a, c);
    if q >= 0 {
      assert (a + b)[q] == c;
    }
    if r >= 0 {
      assert a[r] == c;
    }
  }

  /** The string without its trailing '/' characters, as `basename` first does. */
  function StripTrailingSlashes(s: string): (r: string)
    ensures r <= s
    ensures r == [] || r[|r| - 1] != '/'
    ensures forall k :: |r| <= k < |s| ==> s[k] == '/'
  {
    if s != [] && s[|s| - 1] == '/' then StripTrailingSlashes(s[..|s| - 1]) else s
  }

  /** `basename($name)`: the part after the last '/', trailing '/' ignored. */
  function BaseName(name: string): (base: string)
    ensures '/' !in base
    ensures forall k :: 0 <= k < |base| ==> base[k] in name
  {
    var dir := StripTrailingSlashes(name);
    var start := LastIndexOf(dir, '/') + 1;
    var base := dir[start..];
    assert forall k :: 0 <= k < |base| ==> base[k] == name[start + k];
    base
  }

  /**
   * `pathinfo($name, PATHINFO_EXTENSION)`: what follows the last '.' of the
   * base name, or "" when the base name has no '.'.
   */
  function FileExtension(name: string): (ext: string)
    ensures ext != [] ==> '.' in name
    ensures '.' !in ext && '/' !in ext
  {
    var base := BaseName(name);
    var dot := LastIndexOf(base, '.');
    if dot < 0 then "" else assert base[dot] in name; base[dot + 1..]
  }

  /** The base name of a file name in a directory is the file name. */
  lemma BaseNameOf(dir: string, base: string)
    requires dir == [] || dir[|dir| - 1] == '/'
    requires base != [] && '/' !in base
    ensures BaseName(dir + base) == base
  {
    var name := dir + base;
    assert name[|name| - 1] == base[|base| - 1];
    assert StripTrailingSlashes(name) == name;
    LastIndexOfAppend(dir, base, '/');
    if dir != [] {
      assert LastIndexOf(dir, '/') == |dir| - 1;
    }
    assert name[LastIndexOf(name, '/') + 1..] == base;
  }

  /**
   * The extension of a file name in a directory is what follows the last
   * '.' of the file name.
   */
  lemma FileExtensionOf(dir: string, stem: string, e: string)
    requires dir == [] || dir[|dir| - 1] == '/'
    requires '/' !in stem && '/' !in e && '.' !in e
    ensures FileExtension(dir + stem + "." + e) == e
  {
    var base := stem + "." + e;
    assert dir + stem + "." + e == dir + base;
    BaseNameOf(dir, base);
    LastIndexOfAppend(stem + ".", e, '.');
    assert LastIndexOf(stem + ".", '.') == |stem|;
    assert base == (stem + ".") + e;
    assert base[|stem| + 1..] == e;
  }

  /** A file name without a '.' has no extension. */
  lemma NoDotNoExtension(dir: string, stem: string)
    requires dir == [] || dir[|dir| - 1] == '/'
    requires stem != [] && '/' !in stem && '.' !in stem
    ensures FileExtension(dir + stem) == ""
  {
    BaseNameOf(dir, stem);
  }

  /** Trailing '/' characters do not change the extension, as in `basename`. */
  lemma FileExtensionTrailingSlash(name: string)
    ensures FileExtension(name + "/") == FileExtension(name)
  {
    assert (name + "/")[..|name|] == name;
    assert StripTrailingSlashes(name + "/") == StripTrailingSlashes(name);
  }

  // ---------------------------------------------------------------------
  // Decimal numbers

  function DigitChar(d: nat): (c: char)
    requires d < 10
    ensures '0' <= c <= '9' && c as int - '0' as int == d
  {
    (d + '0' as int) as char
  }

  predicate IsDigit(c: char)
  {
    '0' <= c <= '9'
  }

  /** The decimal form of a natural number, as PHP writes it for `%d` or `.`. */
  function NatToString(n: nat): (r: string)
    ensures |r| >= 1
    ensures forall i :: 0 <= i < |r| ==> IsDigit(r[i])
    ensures r[0] == '0' ==> n == 0
  {
    if n < 10 then [DigitChar(n)] else NatToString(n / 10) + [DigitChar(n % 10)]
  }

  /** The value of a string of decimal digits. */
  function DigitsValue(s: string): nat
    requires forall i :: 0 <= i < |s| ==> IsDigit(s[i])
  {
    if s == [] then 0
    else
      var last := s[|s| - 1];
      assert IsDigit(last);
      10 * DigitsValue(s[..|s| - 1]) + (last as int - '0' as int)
  }

  /** Reading back the decimal form gives the number. */
  lemma {:induction false} NatToStringRoundTrip(n: nat)
    ensures DigitsValue(NatToString(n)) == n
  {
    if n >= 10 {
      var s := NatToString(n);
      assert s[..|s| - 1] == NatToString(n / 10);
      NatToStringRoundTrip(n / 10);
    }
  }

  lemma NatToStringInjective(a: nat, b: nat)
    requires NatToString(a) == NatToString(b)
    ensures a == b
  {
    NatToStringRoundTrip(a);
    NatToStringRoundTrip(b);
  }

  /** The decimal form of an integer, with a leading '-' when negative. */
  function IntToString(i: int): (r: string)
    ensures |r| >= 1
    ensures i >= 0 ==> r == NatToString(i)
    ensures i < 0 ==> r == "-" + NatToString(-i)
  {
    if i < 0 then "-" + NatToString(-i) else NatToString(i)
  }

  lemma IntToStringInjective(a: int, b: int)
    requires IntToString(a) == IntToString(b)
    ensures a == b
  {
    var s := IntToString(a);
    if a < 0 && b < 0 {
      assert s[1..] == NatToString(-a) == NatToString(-b);
      NatToStringInjective(-a, -b);
    } else if a >= 0 && b >= 0 {
      NatToStringInjective(a, b);
    }
  }

  // ---------------------------------------------------------------------
  // explode

  /** `explode($c, $s)` for a one-character separator. */
  function Explode(s: string, c: char): (r: seq<string>)
    ensures |r| >= 1
  {
    if s == [] then [""]
    else
      var rest := Explode(s[1..], c);
      if s[0] == c then [""] + rest else [[s[0]] + rest[0]] + rest[1..]
  }

  /** `implode($c, $parts)`. */
  function Join(parts: seq<string>, c: char): string
    requires |parts| >= 1
  {
    if |parts| == 1 then parts[0] else parts[0] + [c] + Join(parts[1..], c)
  }

  /** No piece of an explode holds the separator. */
  lemma {:induction false} ExplodeSeparatorFree(s: string, c: char)
    ensures forall i :: 0 <= i < |Explode(s, c)| ==> c !in Explode(s, c)[i]
  {
    if s != [] {
      ExplodeSeparatorFree(s[1..], c);
    }
  }

  /** Joining the pieces again gives back the string. */
  lemma {:induction false} ExplodeJoin(s: string, c: char)
    ensures Join(Explode(s, c), c) == s
  {
    if s != [] {
      var rest := Explode(s[1..], c);
      ExplodeJoin(s[1..], c);
      if s[0] == c {
        assert Explode(s, c)[1..] == rest;
      } else {
        var r := Explode(s, c);
        if |rest| == 1 {
          assert r == [[s[0]] + rest[0]];
        } else {
          assert r[1..] == rest[1..];
          assert Join(r, c) == [s[0]] + rest[0] + [c] + Join(rest[1..], c);
        }
      }
    }
  }
}
