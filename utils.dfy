/**
 * The importer's utilities (BPI_Utils): the text-to-block conversion of post
 * content, the recursive sanitizer of the submitted field mapping, the
 * upload error messages, the transient key and the list of standard fields.
 */
module Utils {
  import opened PhpValue
  import opened PhpString
  import opened WordPress

  // ---------------------------------------------------------------------
  // Line splitting

  const CR: char := '\r'
  const LF: char := '\n'

  /**
   * The one-character line breaks that PCRE's `\R` matches when the pattern
   * has no /u modifier: LF, VT, FF, CR and the byte 0x85 (NEL).
   */
  const BsrSingles: set<char> := {'\n', '\U{B}', '\U{C}', '\r', '\U{85}'}

  /**
   * The one-character line breaks of `\R` other than the byte 0x85: LF, VT,
   * FF and CR. Splitting on these (and on CR LF) is what `\R` does on text
   * without that byte, and what it does on UTF-8 text under /u apart from
   * the multibyte breaks.
   */
  const LineBreakSingles: set<char> := {'\n', '\U{B}', '\U{C}', '\r'}

  /** A text with no line break in it. */
  predicate NoLineBreak(t: string)
  {
    forall i :: 0 <= i < |t| ==> t[i] !in LineBreakSingles
  }

  /**
   * `preg_split` on a line-break pattern: CR LF is one break, and so is
   * every character of `singles`; the pieces between breaks are returned,
   * empty ones included.
   */
  function SplitLines(s: string, singles: set<char>): (lines: seq<string>)
    ensures |lines| >= 1
    decreases |s|
  {
    if s == [] then [""]
    else if |s| >= 2 && s[0] == CR && s[1] == LF then [""] + SplitLines(s[2..], singles)
    else if s[0] in singles then [""] + SplitLines(s[1..], singles)
    else Glue(s[0], SplitLines(s[1..], singles))
  }

  /** A character that is not a break joins the first line that follows it. */
  function Glue(c: char, lines: seq<string>): (r: seq<string>)
    requires |lines| >= 1
    ensures |r| == |lines|
  {
    [[c] + lines[0]] + lines[1..]
  }

  lemma GlueAppend(c: char, t: seq<string>, u: seq<string>)
    requires |t| >= 1
    ensures Glue(c, t + u) == Glue(c, t) + u
  {
    assert (t + u)[0] == t[0];
    assert (t + u)[1..] == t[1..] + u;
  }

  /** A text without any line break is one line. */
  lemma {:induction false} SplitLinesNoBreak(s: string, singles: set<char>)
    requires forall i :: 0 <= i < |s| ==> s[i] !in singles && s[i] != CR
    ensures SplitLines(s, singles) == [s]
  {
    if s != [] {
      SplitLinesNoBreak(s[1..], singles);
      assert [s[0]] + s[1..] == s;
    }
  }

  /** The lines of a text that starts with CR LF. */
  lemma SplitLinesPair(s: string, singles: set<char>)
    requires |s| >= 2 && s[0] == CR && s[1] == LF
    ensures SplitLines(s, singles) == [""] + SplitLines(s[2..], singles)
  {
  }

  /** The lines of a text that does not start with CR LF. */
  lemma SplitLinesHead(s: string, singles: set<char>)
    requires s != [] && !(|s| >= 2 && s[0] == CR && s[1] == LF)
    ensures s[0] in singles ==> SplitLines(s, singles) == [""] + SplitLines(s[1..], singles)
    ensures s[0] !in singles ==> SplitLines(s, singles) == Glue(s[0], SplitLines(s[1..], singles))
  {
  }

  lemma EmptyLineAppend(x: seq<string>, y: seq<string>)
    ensures [""] + (x + y) == ([""] + x) + y
  {
  }

  /**
   * A line break that runs from position `i` up to `j` splits the text in
   * two, if the pieces before and after it would each be split the same way
   * on their own. This is the inductive step shared by both kinds of break.
   */
  predicate SplitsAt(s: string, i: nat, j: nat, singles: set<char>)
    requires i <= j <= |s|
  {
    SplitLines(s, singles) == SplitLines(s[..i], singles) + SplitLines(s[j..], singles)
  }

  /** A leading CR LF pair before the break is peeled off. */
  lemma SplitsAtPairStep(s: string, i: nat, j: nat, singles: set<char>)
    requires 2 <= i <= j <= |s| && s[0] == CR && s[1] == LF
    requires SplitsAt(s[2..], i - 2, j - 2, singles)
    ensures SplitsAt(s, i, j, singles)
  {
    var p := s[..i];
    assert s[2..][..i - 2] == p[2..];
    assert s[2..][j - 2..] == s[j..];
    var l, r := SplitLines(p[2..], singles), SplitLines(s[j..], singles);
    assert SplitLines(s[2..], singles) == l + r;
    SplitLinesPair(s, singles);
    SplitLinesPair(p, singles);
    EmptyLineAppend(l, r);
  }

  /** A leading character other than a CR LF pair before the break is peeled off. */
  lemma SplitsAtOtherStep(s: string, i: nat, j: nat, singles: set<char>)
    requires 1 <= i <= j <= |s| && !(|s| >= 2 && s[0] == CR && s[1] == LF)
    requires SplitsAt(s[1..], i - 1, j - 1, singles)
    ensures SplitsAt(s, i, j, singles)
  {
    var p := s[..i];
    assert s[1..][..i - 1] == p[1..];
    assert s[1..][j - 1..] == s[j..];
    assert p[0] == s[0];
    assert !(|p| >= 2 && p[0] == CR && p[1] == LF);
    var l, r := SplitLines(p[1..], singles), SplitLines(s[j..], singles);
    assert SplitLines(s[1..], singles) == l + r;
    SplitLinesHead(s, singles);
    SplitLinesHead(p, singles);
    if s[0] in singles {
      EmptyLineAppend(l, r);
    } else {
      GlueAppend(s[0], l, r);
    }
  }

  /**
   * A one-character break at position `i` splits the text in two, unless it
   * pairs up with a CR before it or an LF after it.
   */
  lemma {:induction false} SplitAtSingle(s: string, i: nat, singles: set<char>)
    requires i < |s| && s[i] in singles
    requires !(s[i] == LF && i > 0 && s[i - 1] == CR)
    requires !(s[i] == CR && i + 1 < |s| && s[i + 1] == LF)
    ensures SplitsAt(s, i, i + 1, singles)
    decreases i
  {
    if i == 0 {
      assert s[..0] == [];
      SplitLinesHead(s, singles);
    } else if s[0] == CR && s[1] == LF {
      SplitAtSingle(s[2..], i - 2, singles);
      SplitsAtPairStep(s, i, i + 1, singles);
    } else {
      SplitAtSingle(s[1..], i - 1, singles);
      SplitsAtOtherStep(s, i, i + 1, singles);
    }
  }

  /** A CR LF pair at position `i` splits the text in two. */
  lemma {:induction false} SplitAtPair(s: string, i: nat, singles: set<char>)
    requires i + 1 < |s| && s[i] == CR && s[i + 1] == LF
    ensures SplitsAt(s, i, i + 2, singles)
    decreases i
  {
    if i == 0 {
      assert s[..0] == [];
      SplitLinesPair(s, singles);
    } else if s[0] == CR && s[1] == LF {
      SplitAtPair(s[2..], i - 2, singles);
      SplitsAtPairStep(s, i, i + 2, singles);
    } else {
      SplitAtPair(s[1..], i - 1, singles);
      SplitsAtOtherStep(s, i, i + 2, singles);
    }
  }

  // ---------------------------------------------------------------------
  // convert_to_blocks

  const BlockOpen: string := "\n<!-- wp:paragraph --><p>"
  const BlockClose: string := "</p><!-- /wp:paragraph -->\n\n"

  /** One paragraph block around a line. */
  function Paragraph(line: string): string
  {
    BlockOpen + line + BlockClose
  }

  /** One line's contribution: its trimmed self, unless that is `empty()`. */
  function KeepLine(line: string): seq<string>
  {
    var t := Trim(line);
    if IsFalsyString(t) then [] else [t]
  }

  /**
   * The lines that become blocks, trimmed, in order: a line is dropped when
   * it is `empty()` after trimming, so blank lines and a lone "0" vanish.
   */
  function KeptLines(lines: seq<string>): seq<string>
  {
    if lines == [] then [] else KeptLines(lines[..|lines| - 1]) + KeepLine(lines[|lines| - 1])
  }

  /** The blocks for a sequence of kept lines, one paragraph each, in order. */
  function Paragraphs(kept: seq<string>): string
  {
    if kept == [] then "" else Paragraphs(kept[..|kept| - 1]) + Paragraph(kept[|kept| - 1])
  }

  /**
   * The output of convert_to_blocks for already sanitized text, with the
   * line splitting `\R` is meant to do: at CR LF, LF, VT, FF and CR, never
   * inside a multibyte character.
   */
  function TextToBlocks(text: string): string
  {
    Paragraphs(KeptLines(SplitLines(text, LineBreakSingles)))
  }

  /** The same with the line splitting of the `/\R/` pattern as written. */
  function TextToBlocksAsWritten(text: string): string
  {
    Paragraphs(KeptLines(SplitLines(text, BsrSingles)))
  }

  /**
   * convert_to_blocks: sanitize with wp_kses_post, split into lines, append
   * one paragraph block per non-empty trimmed line.
   */
  method ConvertToBlocks(content: Value, host: Host) returns (blocks: string)
    ensures blocks == TextToBlocks(host.ksesPost(content))
  {
    var sanitized := host.ksesPost(content);
    var lines := SplitLines(sanitized, LineBreakSingles);
    blocks := "";
    var i := 0;
    while i < |lines|
      invariant 0 <= i <= |lines|
      invariant blocks == Paragraphs(KeptLines(lines[..i]))
    {
      var trimmed := Trim(lines[i]);
      ParagraphsStep(lines, i);
      if !IsFalsyString(trimmed) {
        blocks := blocks + Paragraph(trimmed);
      }
      i := i + 1;
    }
    assert lines[..i] == lines;
  }

  /** One more line adds its block, if it has one. */
  lemma ParagraphsStep(lines: seq<string>, i: nat)
    requires i < |lines|
    ensures IsFalsyString(Trim(lines[i])) ==>
      Paragraphs(KeptLines(lines[..i + 1])) == Paragraphs(KeptLines(lines[..i]))
    ensures !IsFalsyString(Trim(lines[i])) ==>
      Paragraphs(KeptLines(lines[..i + 1])) == Paragraphs(KeptLines(lines[..i])) + Paragraph(Trim(lines[i]))
  {
    assert lines[..i + 1][..i] == lines[..i];
    var kept := KeptLines(lines[..i]);
    assert KeptLines(lines[..i + 1]) == kept + KeepLine(lines[i]);
    var t := Trim(lines[i]);
    if !IsFalsyString(t) {
      assert (kept + [t])[..|kept|] == kept;
    } else {
      assert kept + [] == kept;
    }
  }

  lemma {:induction false} KeptLinesAppend(a: seq<string>, b: seq<string>)
    ensures KeptLines(a + b) == KeptLines(a) + KeptLines(b)
    decreases |b|
  {
    if b != [] {
      var b' := b[..|b| - 1];
      assert (a + b)[..|a + b| - 1] == a + b';
      assert (a + b)[|a + b| - 1] == b[|b| - 1];
      KeptLinesAppend(a, b');
    } else {
      assert a + b == a;
    }
  }

  /** A trailing empty line is dropped. */
  lemma KeptLinesBlankLast(lines: seq<string>)
    ensures KeptLines(lines + [""]) == KeptLines(lines)
  {
    assert (lines + [""])[..|lines|] == lines;
    assert KeepLine("") == [];
    assert KeptLines(lines) + [] == KeptLines(lines);
  }

  lemma {:induction false} ParagraphsAppend(a: seq<string>, b: seq<string>)
    ensures Paragraphs(a + b) == Paragraphs(a) + Paragraphs(b)
    decreases |b|
  {
    if b != [] {
      var b' := b[..|b| - 1];
      assert (a + b)[..|a + b| - 1] == a + b';
      ParagraphsAppend(a, b');
    } else {
      assert a + b == a;
    }
  }

  /** Empty content gives no blocks at all. */
  lemma EmptyTextNoBlocks()
    ensures TextToBlocks("") == ""
    ensures TextToBlocksAsWritten("") == ""
  {
    assert KeptLines([""]) == KeptLines([]) + [];
  }

  /**
   * A line break between two texts contributes nothing: the blocks of the
   * whole are the blocks of each part, in order. This holds for both ways of
   * splitting lines.
   */
  lemma KeptLinesAtNewline(t1: string, t2: string, singles: set<char>)
    requires CR in singles && LF in singles
    ensures KeptLines(SplitLines(t1 + [LF] + t2, singles))
         == KeptLines(SplitLines(t1, singles)) + KeptLines(SplitLines(t2, singles))
  {
    if t1 != [] && t1[|t1| - 1] == CR {
      var t1' := t1[..|t1| - 1];
      LinesAtCrLf(t1, t2, singles);
      LinesBeforeCr(t1, singles);
      KeptLinesBlankLast(SplitLines(t1', singles));
      KeptLinesAppend(SplitLines(t1', singles), SplitLines(t2, singles));
    } else {
      LinesAtLf(t1, t2, singles);
      KeptLinesAppend(SplitLines(t1, singles), SplitLines(t2, singles));
    }
  }

  lemma LinesAtLf(t1: string, t2: string, singles: set<char>)
    requires LF in singles && !(t1 != [] && t1[|t1| - 1] == CR)
    ensures SplitLines(t1 + [LF] + t2, singles) == SplitLines(t1, singles) + SplitLines(t2, singles)
  {
    var s, i := t1 + [LF] + t2, |t1|;
    assert s[..i] == t1 && s[i] == LF && s[i + 1..] == t2;
    SplitAtSingle(s, i, singles);
  }

  lemma LinesAtCrLf(t1: string, t2: string, singles: set<char>)
    requires t1 != [] && t1[|t1| - 1] == CR
    ensures SplitLines(t1 + [LF] + t2, singles)
         == SplitLines(t1[..|t1| - 1], singles) + SplitLines(t2, singles)
  {
    var s, i := t1 + [LF] + t2, |t1| - 1;
    assert s[..i] == t1[..i] && s[i] == CR && s[i + 1] == LF && s[i + 2..] == t2;
    SplitAtPair(s, i, singles);
  }

  lemma LinesBeforeCr(t1: string, singles: set<char>)
    requires CR in singles && t1 != [] && t1[|t1| - 1] == CR
    ensures SplitLines(t1, singles) == SplitLines(t1[..|t1| - 1], singles) + [""]
  {
    var i := |t1| - 1;
    assert t1[i + 1..] == [];
    SplitAtSingle(t1, i, singles);
  }

  /** convert_to_blocks is additive across a line break. */
  lemma BlocksAtNewline(t1: string, t2: string)
    ensures TextToBlocks(t1 + "\n" + t2) == TextToBlocks(t1) + TextToBlocks(t2)
  {
    KeptLinesAtNewline(t1, t2, LineBreakSingles);
    ParagraphsAppend(KeptLines(SplitLines(t1, LineBreakSingles)), KeptLines(SplitLines(t2, LineBreakSingles)));
  }

  /** The blocks of a text split at a break from `i` to `j` are those of the two sides. */
  lemma BlocksAtSplit(s: string, i: nat, j: nat)
    requires i <= j <= |s| && SplitsAt(s, i, j, LineBreakSingles)
    ensures TextToBlocks(s) == TextToBlocks(s[..i]) + TextToBlocks(s[j..])
  {
    var l, r := SplitLines(s[..i], LineBreakSingles), SplitLines(s[j..], LineBreakSingles);
    KeptLinesAppend(l, r);
    ParagraphsAppend(KeptLines(l), KeptLines(r));
  }

  /** A CR LF pair between two texts contributes nothing. */
  lemma BlocksAtCrLf(t1: string, t2: string)
    ensures TextToBlocks(t1 + "\r\n" + t2) == TextToBlocks(t1) + TextToBlocks(t2)
  {
    var s, i := t1 + "\r\n" + t2, |t1|;
    assert s[..i] == t1 && s[i] == CR && s[i + 1] == LF && s[i + 2..] == t2;
    SplitAtPair(s, i, LineBreakSingles);
    BlocksAtSplit(s, i, i + 2);
  }

  /**
   * convert_to_blocks is additive across every kind of line break: CR LF,
   * LF, VT, FF and CR each separate two texts without adding a block. A CR
   * that meets an LF at the start of the second text forms one CR LF break.
   */
  lemma BlocksAtBreak(t1: string, br: string, t2: string)
    requires br == "\r\n" || (|br| == 1 && br[0] in LineBreakSingles)
    ensures TextToBlocks(t1 + br + t2) == TextToBlocks(t1) + TextToBlocks(t2)
  {
    if br == "\r\n" {
      BlocksAtCrLf(t1, t2);
    } else if br == "\n" {
      BlocksAtNewline(t1, t2);
    } else if br == "\r" && t2 != [] && t2[0] == LF {
      var rest := t2[1..];
      assert t1 + br + t2 == t1 + "\r\n" + rest;
      assert t2 == "\n" + rest;
      BlocksAtCrLf(t1, rest);
      LeadingNewline(rest);
    } else {
      var s, i := t1 + br + t2, |t1|;
      assert s[..i] == t1 && s[i] == br[0] && s[i + 1..] == t2;
      SplitAtSingle(s, i, LineBreakSingles);
      BlocksAtSplit(s, i, i + 1);
    }
  }

  function Newlines(n: nat): (s: string)
    ensures |s| == n && forall i :: 0 <= i < n ==> s[i] == LF
  {
    seq(n, _ => LF)
  }

  /** Line breaks at the start of a text contribute no blocks. */
  lemma {:induction false} LeadingNewlines(n: nat, t: string)
    ensures TextToBlocks(Newlines(n) + t) == TextToBlocks(t)
  {
    if n > 0 {
      assert Newlines(n) + t == "" + "\n" + (Newlines(n - 1) + t);
      BlocksAtNewline("", Newlines(n - 1) + t);
      EmptyTextNoBlocks();
      LeadingNewlines(n - 1, t);
    } else {
      assert Newlines(0) + t == t;
    }
  }

  /**
   * However many blank lines separate two texts, the blocks are the same as
   * with a single line break.
   */
  lemma BlankLinesCollapse(t1: string, t2: string, n: nat)
    ensures TextToBlocks(t1 + Newlines(n + 1) + t2) == TextToBlocks(t1 + "\n" + t2)
  {
    assert t1 + Newlines(n + 1) + t2 == t1 + "\n" + (Newlines(n) + t2);
    BlocksAtNewline(t1, Newlines(n) + t2);
    LeadingNewlines(n, t2);
    BlocksAtNewline(t1, t2);
  }

  /** A text without a line break is at most one block: its trimmed self. */
  lemma SingleLineOneBlock(text: string)
    requires NoLineBreak(text)
    ensures TextToBlocks(text) == if IsFalsyString(Trim(text)) then "" else Paragraph(Trim(text))
  {
    SplitLinesNoBreak(text, LineBreakSingles);
    assert [text][..0] == [];
    assert KeptLines([text]) == KeepLine(text);
    var t := Trim(text);
    if !IsFalsyString(t) {
      assert [t][..0] == [];
      assert Paragraphs([t]) == Paragraph(t);
    }
  }

  /** A line with no break and nothing to trim that `empty()` does not reject. */
  predicate PlainLine(t: string)
  {
    t != [] && !IsTrimChar(t[0]) && !IsTrimChar(t[|t| - 1]) && t != "0" && NoLineBreak(t)
  }

  /** A plain line is exactly one block. */
  lemma PlainLineOneBlock(t: string)
    requires PlainLine(t)
    ensures TextToBlocks(t) == Paragraph(t)
  {
    TrimUntouched(t);
    SingleLineOneBlock(t);
  }

  /**
   * Two paragraphs separated by a blank line become two blocks, each holding
   * its paragraph, in order.
   */
  lemma TwoParagraphs(a: string, b: string)
    requires PlainLine(a) && PlainLine(b)
    ensures TextToBlocks(a + "\n\n" + b) == Paragraph(a) + Paragraph(b)
  {
    assert a + "\n\n" + b == a + "\n" + ("\n" + b);
    BlocksAtNewline(a, "\n" + b);
    LeadingNewline(b);
    PlainLineOneBlock(a);
    PlainLineOneBlock(b);
  }

  /** A line break at the start of a text contributes no block. */
  lemma LeadingNewline(t: string)
    ensures TextToBlocks("\n" + t) == TextToBlocks(t)
  {
    assert "\n" + t == "" + "\n" + t;
    BlocksAtNewline("", t);
    EmptyTextNoBlocks();
  }

  const NEL: char := '\U{85}'

  /**
   * The `/\R/` pattern without the /u modifier splits inside a UTF-8
   * character whose second byte is 0x85, such as "\u{C5}" (bytes C3 85) or
   * "\u{105}" (bytes C4 85): the conversion emits a block holding the lone
   * lead byte, where the intended conversion keeps the character whole.
   */
  lemma AsWrittenSplitsMultibyteChar(lead: char)
    requires PlainLine([lead]) && lead != NEL
    ensures TextToBlocksAsWritten([lead, NEL]) == Paragraph([lead])
    ensures TextToBlocks([lead, NEL]) == Paragraph([lead, NEL])
  {
    AsWrittenLines(lead);
    AsWrittenKept(lead);
    assert [[lead]][..0] == [];
    assert Paragraphs([[lead]]) == Paragraph([lead]);
    PlainLineOneBlock([lead, NEL]);
  }

  lemma AsWrittenLines(lead: char)
    requires lead !in BsrSingles
    ensures SplitLines([lead, NEL], BsrSingles) == [[lead], ""]
  {
    var s := [lead, NEL];
    assert s[1..] == [NEL];
    assert [NEL][1..] == [];
    assert SplitLines([NEL], BsrSingles) == ["", ""];
    assert SplitLines(s, BsrSingles) == [[lead] + ""] + [""];
    assert [lead] + "" == [lead];
  }

  lemma AsWrittenKept(lead: char)
    requires PlainLine([lead])
    ensures KeptLines([[lead], ""]) == [[lead]]
  {
    var lines: seq<string> := [[lead], ""];
    assert lines[..1] == [[lead]];
    assert KeptLines(lines) == KeptLines([[lead]]) + KeepLine("");
    assert [[lead]][..0] == [];
    assert KeptLines([[lead]]) == KeepLine([lead]);
    TrimUntouched([lead]);
  }

  /**
   * The character "\u{C5}" (bytes C3 85) as written becomes a block holding
   * the lone byte C3; as intended it stays one block with both bytes.
   */
  lemma AsWrittenSplitsARing()
    ensures TextToBlocksAsWritten("\U{C3}\U{85}") == Paragraph("\U{C3}")
    ensures TextToBlocks("\U{C3}\U{85}") == Paragraph("\U{C3}\U{85}")
  {
    AsWrittenSplitsMultibyteChar('\U{C3}');
  }

  // ---------------------------------------------------------------------
  // sanitize_mapping_array and sanitize_mapping_value

  /**
   * The key a mapping entry is stored under after sanitizing: `absint` of a
   * numeric key (an int key, or a string key `is_numeric` accepts), else
   * `sanitize_key` of the string key.
   */
  function SanitizedKey(k: Key, host: Host): (r: Key)
    ensures r.IntKey? ==> r.i >= 0
    ensures k.IntKey? ==> r == IntKey(if k.i < 0 then -k.i else k.i)
    ensures k.StrKey? && !host.isNumericString(k.s) ==> r == StrKey(host.sanitizeKey(Str(k.s)))
  {
    match k
    case IntKey(i) => IntKey(if i < 0 then -i else i)
    case StrKey(s) =>
      if host.isNumericString(s) then IntKey(host.absintString(s)) else StrKey(host.sanitizeKey(Str(s)))
  }

  /** PHP's `(string)` cast of a scalar (an array casts to "Array"). */
  function CastToString(v: Value): (s: string)
    ensures v.Str? ==> s == v.s
    ensures v.Int? ==> s == IntToString(v.i)
    ensures v.Null? || v == Bool(false) <==> s == [] && !v.Str?
  {
    match v
    case Null => ""
    case Bool(b) => if b then "1" else ""
    case Int(i) => IntToString(i)
    case Str(s) => s
    case Arr(_) => "Array"
  }

  /** The characters `[a-zA-Z0-9_-]` that a meta key may hold. */
  predicate IsIdentChar(c: char)
  {
    'a' <= c <= 'z' || 'A' <= c <= 'Z' || '0' <= c <= '9' || c == '_' || c == '-'
  }

  /** `preg_replace('/[^a-zA-Z0-9_\-]/', '', $s)`: the identifier characters of `s`, in order. */
  function KeepIdentChars(s: string): (r: string)
    ensures |r| <= |s|
    ensures forall i :: 0 <= i < |r| ==> IsIdentChar(r[i])
    ensures (forall i :: 0 <= i < |s| ==> IsIdentChar(s[i])) ==> r == s
  {
    if s == [] then []
    else KeepIdentChars(s[..|s| - 1]) + (if IsIdentChar(s[|s| - 1]) then [s[|s| - 1]] else [])
  }

  /** A single character is kept exactly when it is an identifier character. */
  lemma KeepIdentCharsSingle(c: char)
    ensures KeepIdentChars([c]) == if IsIdentChar(c) then [c] else []
  {
    assert [c][..0] == [];
  }

  /** The filter works character by character: it distributes over concatenation. */
  lemma {:induction false} KeepIdentCharsAppend(a: string, b: string)
    ensures KeepIdentChars(a + b) == KeepIdentChars(a) + KeepIdentChars(b)
    decreases |b|
  {
    if b == [] {
      assert a + b == a;
    } else {
      var b' := b[..|b| - 1];
      assert (a + b)[..|a + b| - 1] == a + b';
      assert (a + b)[|a + b| - 1] == b[|b| - 1];
      KeepIdentCharsAppend(a, b');
    }
  }

  const MetaKeyKey: Key := StrKey("meta_key")

  /**
   * sanitize_mapping_value: a value under the key 'meta_key' is cast to a
   * string and cut down to identifier characters; another string goes through
   * sanitize_text_field; an int passes unchanged; anything else becomes ''.
   */
  function SanitizeMappingValue(key: Key, v: Value, host: Host): (r: Value)
    ensures r.Str? || r.Int?
    ensures r.Int? ==> key != MetaKeyKey && r == v
    ensures key == MetaKeyKey ==> r == Str(host.sanitizeTextField(Str(KeepIdentChars(CastToString(v)))))
    ensures key != MetaKeyKey && v.Str? ==> r == Str(host.sanitizeTextField(v))
    ensures key != MetaKeyKey && (v.Null? || v.Bool? || v.Arr?) ==> r == Str("")
  {
    if key == MetaKeyKey then Str(host.sanitizeTextField(Str(KeepIdentChars(CastToString(v)))))
    else if v.Str? then Str(host.sanitizeTextField(v))
    else if v.Int? then v
    else Str("")
  }

  /** What one entry's value becomes: a nested array is sanitized in turn. */
  function SanitizeChild(skey: Key, v: Value, host: Host): Value
    decreases v, 3
  {
    if v.Arr? then SanitizeMapping(v, host) else SanitizeMappingValue(skey, v, host)
  }

  /** The assignments sanitize_mapping_array performs, one per entry of `v`, in order. */
  function SanitizedPairs(v: Value, host: Host): (ps: seq<Entry>)
    requires v.Arr?
    ensures |ps| == |v.entries|
    decreases v, 1
  {
    seq(|v.entries|, i requires 0 <= i < |v.entries| =>
      var skey := SanitizedKey(v.entries[i].key, host);
      Entry(skey, SanitizeChild(skey, v.entries[i].val, host)))
  }

  /**
   * sanitize_mapping_array: every entry is stored under its sanitized key,
   * array values sanitized recursively and other values by
   * sanitize_mapping_value; anything but an array gives an empty array.
   */
  function SanitizeMapping(v: Value, host: Host): (r: Value)
    ensures r.Arr? && DistinctKeys(r.entries)
    ensures !v.Arr? ==> r == Arr([])
    decreases v, 2
  {
    if v.Arr? then Arr(PutAll(SanitizedPairs(v, host))) else Arr([])
  }

  /** sanitize_mapping_array as the loop and recursion it is. */
  method SanitizeMappingArray(v: Value, host: Host) returns (r: Value)
    ensures r == SanitizeMapping(v, host)
    decreases v, 1
  {
    if !v.Arr? {
      return Arr([]);
    }
    var sanitized: seq<Entry> := [];
    var i := 0;
    while i < |v.entries|
      invariant 0 <= i <= |v.entries|
      invariant sanitized == PutAll(SanitizedPairs(v, host)[..i])
    {
      sanitized := SanitizeEntry(v, i, sanitized, host);
      i := i + 1;
    }
    assert SanitizedPairs(v, host)[..i] == SanitizedPairs(v, host);
    r := Arr(sanitized);
  }

  /** One pass of the loop: the `i`-th entry stored under its sanitized key. */
  method SanitizeEntry(v: Value, i: nat, sanitized: seq<Entry>, host: Host) returns (next: seq<Entry>)
    requires v.Arr? && i < |v.entries| && sanitized == PutAll(SanitizedPairs(v, host)[..i])
    ensures next == PutAll(SanitizedPairs(v, host)[..i + 1])
    decreases v, 0
  {
    var e := v.entries[i];
    var skey := SanitizedKey(e.key, host);
    var child;
    if e.val.Arr? {
      child := SanitizeMappingArray(e.val, host);
    } else {
      child := SanitizeMappingValue(skey, e.val, host);
    }
    ghost var ps := SanitizedPairs(v, host);
    assert ps[i] == Entry(skey, child);
    assert ps[..i + 1][..i] == ps[..i];
    next := Put(sanitized, skey, child);
  }

  /**
   * Sanitizing keeps exactly the sanitized keys, and under each one the
   * sanitized value of the last entry whose key maps there: a later
   * duplicate overwrites an earlier one.
   */
  lemma SanitizeMappingFind(v: Value, k: Key, host: Host)
    requires v.Arr?
    ensures var i := LastKeyIndex(SanitizedPairs(v, host), k);
      && (i >= 0 ==> SanitizedKey(v.entries[i].key, host) == k)
      && (forall j :: i < j < |v.entries| ==> SanitizedKey(v.entries[j].key, host) != k)
      && Find(SanitizeMapping(v, host).entries, k)
           == if i < 0 then None else Some(SanitizeChild(k, v.entries[i].val, host))
  {
    var ps := SanitizedPairs(v, host);
    PutAllFind(ps, k);
    var i := LastKeyIndex(ps, k);
    assert forall j :: 0 <= j < |v.entries| ==> ps[j].key == SanitizedKey(v.entries[j].key, host);
  }

  /** Every leaf of a sanitized mapping is a string or an int. */
  predicate SanitizedShape(v: Value)
    decreases v, 0
  {
    v.Arr? && forall e :: e in v.entries ==> SanitizedChild(e.val)
  }

  /** A value a sanitized mapping may hold: a string, an int, or a sanitized array. */
  predicate SanitizedChild(x: Value)
    decreases x, 1
  {
    x.Str? || x.Int? || SanitizedShape(x)
  }

  /** Sanitizing yields an array whose leaves are strings and ints only. */
  lemma {:induction false} SanitizeMappingShape(v: Value, host: Host)
    ensures SanitizedShape(SanitizeMapping(v, host))
    decreases v
  {
    if v.Arr? {
      var ps := SanitizedPairs(v, host);
      PutAllMembers(ps);
      forall i | 0 <= i < |ps| ensures SanitizedChild(ps[i].val) {
        var skey := SanitizedKey(v.entries[i].key, host);
        assert ps[i].val == SanitizeChild(skey, v.entries[i].val, host);
        if v.entries[i].val.Arr? {
          SanitizeMappingShape(v.entries[i].val, host);
        }
      }
    }
  }

  /** Keys that stay apart after sanitizing. */
  ghost predicate KeysStayDistinct(v: Value, host: Host)
    requires v.Arr?
  {
    forall i, j :: 0 <= i < j < |v.entries| ==>
      SanitizedKey(v.entries[i].key, host) != SanitizedKey(v.entries[j].key, host)
  }

  /**
   * When no two keys collide after sanitizing, the result is the input
   * entry by entry, in order: each key sanitized, each value sanitized.
   */
  lemma SanitizeMappingPointwise(v: Value, host: Host)
    requires v.Arr? && KeysStayDistinct(v, host)
    ensures var r := SanitizeMapping(v, host).entries;
      |r| == |v.entries| && forall i :: 0 <= i < |r| ==>
        r[i] == Entry(SanitizedKey(v.entries[i].key, host),
                      SanitizeChild(SanitizedKey(v.entries[i].key, host), v.entries[i].val, host))
  {
    var ps := SanitizedPairs(v, host);
    assert DistinctKeys(ps) by {
      forall i, j | 0 <= i < j < |ps| ensures ps[i].key != ps[j].key {
        assert ps[i].key == SanitizedKey(v.entries[i].key, host);
      }
    }
    PutAllDistinct(ps);
  }

  // ---------------------------------------------------------------------
  // Fixed tables

  /** The messages get_upload_error_message chooses from. */
  datatype UploadMessage =
    | NoError | IniSize | FormSize | Partial | NoFile | NoTmpDir | CantWrite | ExtensionStop
    | UnknownUpload
  {
    function Text(): string
    {
      match this
      case NoError => "No error, file uploaded successfully."
      case IniSize => "The uploaded file exceeds the upload_max_filesize directive in php.ini."
      case FormSize => "The uploaded file exceeds the MAX_FILE_SIZE directive that was specified in the HTML form."
      case Partial => "The uploaded file was only partially uploaded."
      case NoFile => "No file was uploaded."
      case NoTmpDir => "Missing a temporary folder on the server."
      case CantWrite => "Failed to write file to disk on the server."
      case ExtensionStop => "A PHP extension stopped the file upload."
      case UnknownUpload => "Unknown upload error occurred."
    }
  }

  /** The PHP upload error codes UPLOAD_ERR_OK (0) to UPLOAD_ERR_EXTENSION (8); 5 is unused. */
  const KnownUploadCodes: set<int> := {0, 1, 2, 3, 4, 6, 7, 8}

  /**
   * Which message get_upload_error_message picks: one of its own for each of
   * the eight known codes, the unknown-error message for any other.
   */
  function UploadMessageFor(code: int): (m: UploadMessage)
    ensures m == UnknownUpload <==> code !in KnownUploadCodes
  {
    match code
    case 0 => NoError
    case 1 => IniSize
    case 2 => FormSize
    case 3 => Partial
    case 4 => NoFile
    case 6 => NoTmpDir
    case 7 => CantWrite
    case 8 => ExtensionStop
    case _ => UnknownUpload
  }

  /** Different known codes get different messages. */
  lemma UploadMessagesDistinct(a: int, b: int)
    requires a in KnownUploadCodes && b in KnownUploadCodes && a != b
    ensures UploadMessageFor(a) != UploadMessageFor(b)
  {
  }

  /** get_upload_error_message. */
  function UploadErrorMessage(code: int): (msg: string)
    ensures code !in KnownUploadCodes ==> msg == "Unknown upload error occurred."
  {
    UploadMessageFor(code).Text()
  }

  const TransientPrefix: string := "bpi_import_data_"

  /** generate_transient_key: the prefix, the user id, '_' and the nonce. */
  function TransientKey(userId: int, nonce: string): (key: string)
    ensures |key| > |TransientPrefix| && key[..|TransientPrefix|] == TransientPrefix
    ensures key[|TransientPrefix|..] == IntToString(userId) + "_" + nonce
  {
    TransientPrefix + IntToString(userId) + "_" + nonce
  }

  lemma IntToStringNoUnderscore(i: int)
    ensures '_' !in IntToString(i)
  {
    var s := IntToString(i);
    if i >= 0 {
      assert forall j :: 0 <= j < |s| ==> IsDigit(s[j]);
    } else {
      var t := NatToString(-i);
      assert forall j :: 0 <= j < |t| ==> IsDigit(t[j]);
      assert forall j :: 1 <= j < |s| ==> s[j] == t[j - 1];
    }
  }

  /** Different users or nonces never share a transient key. */
  lemma TransientKeyInjective(u1: int, n1: string, u2: int, n2: string)
    requires TransientKey(u1, n1) == TransientKey(u2, n2)
    ensures u1 == u2 && n1 == n2
  {
    var a1, a2 := IntToString(u1), IntToString(u2);
    var s1, s2 := a1 + "_" + n1, a2 + "_" + n2;
    assert s1 == s2;
    IntToStringNoUnderscore(u1);
    IntToStringNoUnderscore(u2);
    assert s1 == a1 + ['_'] + n1 && s2 == a2 + ['_'] + n2;
    FirstIndexOfAfter(a1, '_', n1);
    FirstIndexOfAfter(a2, '_', n2);
    assert a1 == s1[..|a1|] == s2[..|a2|] == a2;
    assert n1 == s1[|a1| + 1..] == s2[|a2| + 1..] == n2;
    IntToStringInjective(u1, u2);
  }

  /** The standard post fields the mapping screen offers, in order. */
  const StandardFieldKeys: seq<string> := ["post_title", "post_content", "post_excerpt", "post_status", "post_date"]

  /** get_standard_fields: each standard field with its label. */
  function StandardFields(): (fields: Value)
    ensures fields.Arr? && DistinctKeys(fields.entries)
    ensures KeysOf(fields.entries) == seq(5, i requires 0 <= i < 5 => StrKey(StandardFieldKeys[i]))
    ensures forall e :: e in fields.entries ==> e.val.Str? && e.val.s != ""
  {
    Arr([
      Entry(StrKey("post_title"), Str("Title (Required)")),
      Entry(StrKey("post_content"), Str("Content (Converted to Paragraph Blocks)")),
      Entry(StrKey("post_excerpt"), Str("Excerpt")),
      Entry(StrKey("post_status"), Str("Status (e.g., publish, draft)")),
      Entry(StrKey("post_date"), Str("Date (YYYY-MM-DD HH:MM:SS)"))
    ])
  }
}
