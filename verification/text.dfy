/** The JavaScript string primitives the storefront relies on, written out:
    `trim`, `split` on a separator, `join`, ASCII `toLowerCase`, and the
    code-point order used in place of `localeCompare`. */
module Text {

  /** Code points removed by `String.prototype.trim` and matched by the regular
      expression class `\s`: ECMAScript WhiteSpace and LineTerminator. */
  predicate IsSpace(c: char)
  {
    || c == ' ' || c == '\t' || c == '\n' || c == '\r'
    || c == '\U{000B}' || c == '\U{000C}' || c == '\U{00A0}' || c == '\U{1680}'
    || ('\U{2000}' <= c <= '\U{200A}')
    || c == '\U{2028}' || c == '\U{2029}' || c == '\U{202F}' || c == '\U{205F}'
    || c == '\U{3000}' || c == '\U{FEFF}'
  }

  /** Neither end of `s` is white space. */
  predicate IsTrimmed(s: string)
  {
    |s| == 0 || (!IsSpace(s[0]) && !IsSpace(s[|s| - 1]))
  }

  /** `s` with its leading white space removed. */
  function TrimStart(s: string): (r: string)
    ensures |r| <= |s| && r == s[|s| - |r|..]
    ensures |r| == 0 || !IsSpace(r[0])
    decreases |s|
  {
    if |s| > 0 && IsSpace(s[0]) then TrimStart(s[1..]) else s
  }

  /** What `TrimStart` removes is all white space. */
  lemma {:induction false} TrimStartSkipsSpace(s: string)
    ensures forall i :: 0 <= i < |s| - |TrimStart(s)| ==> IsSpace(s[i])
    decreases |s|
  {
    if |s| > 0 && IsSpace(s[0]) {
      TrimStartSkipsSpace(s[1..]);
      assert forall i :: 1 <= i < |s| ==> s[i] == s[1..][i - 1];
    }
  }

  /** `s` with its trailing white space removed. */
  function TrimEnd(s: string): (r: string)
    ensures |r| <= |s| && r == s[..|r|]
    ensures |r| == 0 || !IsSpace(r[|r| - 1])
    decreases |s|
  {
    if |s| > 0 && IsSpace(s[|s| - 1]) then TrimEnd(s[..|s| - 1]) else s
  }

  /** What `TrimEnd` removes is all white space. */
  lemma {:induction false} TrimEndSkipsSpace(s: string)
    ensures forall i :: |TrimEnd(s)| <= i < |s| ==> IsSpace(s[i])
    decreases |s|
  {
    if |s| > 0 && IsSpace(s[|s| - 1]) {
      TrimEndSkipsSpace(s[..|s| - 1]);
    }
  }

  /** `String.prototype.trim`. */
  function Trim(s: string): (r: string)
    ensures IsTrimmed(r)
    ensures |r| <= |s|
    ensures IsTrimmed(s) ==> r == s
  {
    var t := TrimStart(s);
    assert |t| > 0 ==> !IsSpace(t[0]);
    var r := TrimEnd(t);
    assert |r| > 0 ==> r[0] == t[0];
    r
  }

  /** Trimming leaves nothing exactly when the text is all white space. */
  lemma TrimBlank(s: string)
    ensures Trim(s) == [] <==> forall i :: 0 <= i < |s| ==> IsSpace(s[i])
  {
    var t := TrimStart(s);
    TrimStartSkipsSpace(s);
    TrimEndSkipsSpace(t);
    if Trim(s) == [] {
      assert t == [];
    }
  }

  /** Trimming is idempotent. */
  lemma TrimIdempotent(s: string)
    ensures Trim(Trim(s)) == Trim(s)
  {
  }

  /** A single leading space in front of a trimmed word is trimmed away. */
  lemma TrimLeadingSpace(u: string)
    requires IsTrimmed(u) && |u| > 0
    ensures Trim(" " + u) == u
  {
    assert (" " + u)[1..] == u;
    assert TrimStart(" " + u) == TrimStart(u) == u;
  }

  /** Stripping "- " in front of a trimmed non-empty text gives the text back. */
  lemma TrimAfterDash(u: string)
    requires IsTrimmed(u) && |u| > 0
    ensures ("- " + u)[0] == '-' && TrimStart(("- " + u)[1..]) == u
  {
    assert ("- " + u)[1..] == " " + u;
    assert (" " + u)[1..] == u;
  }

  /** Occurrence of `sep` in `s` starting at index `i`. */
  predicate SepAt(s: string, sep: string, i: int)
  {
    0 <= i && i + |sep| <= |s| && s[i..i + |sep|] == sep
  }

  /** No occurrence of `sep` starts inside `piece`, even one running into a
      following `sep`: the condition under which `split` gives `piece` back. */
  predicate SepFree(piece: string, sep: string)
  {
    forall i :: 0 <= i < |piece| ==> !SepAt(piece + sep, sep, i)
  }

  /** `s` begins with `sep`. */
  predicate StartsWith(s: string, sep: string)
  {
    |sep| <= |s| && s[..|sep|] == sep
  }

  /** `String.prototype.split(sep)` for a non-empty separator: the text is cut
      at each occurrence of `sep`, scanning left to right; the result always
      has at least one (possibly empty) piece. */
  function Split(s: string, sep: string): (r: seq<string>)
    requires |sep| > 0
    ensures |r| >= 1
    decreases |s|
  {
    if StartsWith(s, sep) then [""] + Split(s[|sep|..], sep)
    else if |s| == 0 then [""]
    else
      var rest := Split(s[1..], sep);
      [[s[0]] + rest[0]] + rest[1..]
  }

  /** `Array.prototype.join(sep)` on strings. */
  function Join(parts: seq<string>, sep: string): string
  {
    if |parts| == 0 then ""
    else if |parts| == 1 then parts[0]
    else parts[0] + sep + Join(parts[1..], sep)
  }

  /** Joining a first part in front of at least one more. */
  lemma JoinCons(first: string, rest: seq<string>, sep: string)
    requires |rest| > 0
    ensures Join([first] + rest, sep) == first + sep + Join(rest, sep)
  {
    assert ([first] + rest)[1..] == rest;
  }

  /** A character put in front of the first part ends up in front of the join. */
  lemma JoinConsChar(c: char, parts: seq<string>, sep: string)
    requires |parts| >= 1
    ensures Join([[c] + parts[0]] + parts[1..], sep) == [c] + Join(parts, sep)
  {
    var q := [[c] + parts[0]] + parts[1..];
    assert q[0] == [c] + parts[0] && q[1..] == parts[1..];
    if |parts| > 1 {
      assert [c] + parts[0] + sep + Join(parts[1..], sep) == [c] + (parts[0] + sep + Join(parts[1..], sep));
    }
  }

  /** Splitting a text that does not start with the separator: the first
      character joins the first piece of the rest. */
  lemma SplitCharStep(s: string, sep: string)
    requires |sep| > 0 && |s| > 0 && !StartsWith(s, sep)
    ensures Split(s, sep) == [[s[0]] + Split(s[1..], sep)[0]] + Split(s[1..], sep)[1..]
  {
  }

  /** A header line "<h>:" in front of further lines. */
  lemma HeaderJoin(h: string, rest: seq<string>)
    requires |rest| > 0
    ensures h + ":\n" + Join(rest, "\n") == Join([h + ":"] + rest, "\n")
  {
    JoinCons(h + ":", rest, "\n");
    assert h + ":\n" == h + ":" + "\n";
  }

  /** An empty first part leaves just the separator in front. */
  lemma JoinAfterEmpty(rest: seq<string>, sep: string)
    requires |rest| > 0
    ensures Join([""] + rest, sep) == sep + Join(rest, sep)
  {
    JoinCons("", rest, sep);
    assert "" + sep == sep;
  }

  /** A text starting with the separator: the join puts it back in front. */
  lemma JoinSplitSep(s: string, sep: string)
    requires |sep| > 0 && StartsWith(s, sep)
    requires Join(Split(s[|sep|..], sep), sep) == s[|sep|..]
    ensures Join(Split(s, sep), sep) == s
  {
    var tail := s[|sep|..];
    JoinAfterEmpty(Split(tail, sep), sep);
    assert s == s[..|sep|] + tail;
  }

  /** A text not starting with the separator: the join puts its first character back. */
  lemma JoinSplitChar(s: string, sep: string)
    requires |sep| > 0 && |s| > 0 && !StartsWith(s, sep)
    requires Join(Split(s[1..], sep), sep) == s[1..]
    ensures Join(Split(s, sep), sep) == s
  {
    SplitCharStep(s, sep);
    JoinConsChar(s[0], Split(s[1..], sep), sep);
    assert s == [s[0]] + s[1..];
  }

  /** Joining the pieces of a split gives the original text back. */
  lemma {:induction false} JoinSplit(s: string, sep: string)
    requires |sep| > 0
    ensures Join(Split(s, sep), sep) == s
    decreases |s|
  {
    if StartsWith(s, sep) {
      JoinSplit(s[|sep|..], sep);
      JoinSplitSep(s, sep);
    } else if |s| > 0 {
      JoinSplit(s[1..], sep);
      JoinSplitChar(s, sep);
    }
  }

  /** A separator-free piece does not start with the separator, whatever
      follows it. */
  lemma SepFreeHead(piece: string, sep: string, rest: string)
    requires |sep| > 0 && |piece| > 0 && SepFree(piece, sep)
    ensures !StartsWith(piece + sep + rest, sep) && !StartsWith(piece, sep)
  {
    assert !SepAt(piece + sep, sep, 0);
    assert (piece + sep + rest)[..|sep|] == (piece + sep)[..|sep|];
  }

  /** The tail of a separator-free piece is separator-free. */
  lemma SepFreeTail(piece: string, sep: string)
    requires |sep| > 0 && |piece| > 0 && SepFree(piece, sep)
    ensures SepFree(piece[1..], sep)
  {
    var tail := piece[1..];
    forall i | 0 <= i < |tail| ensures !SepAt(tail + sep, sep, i) {
      assert !SepAt(piece + sep, sep, i + 1);
      assert (tail + sep)[i..i + |sep|] == (piece + sep)[i + 1..i + 1 + |sep|];
    }
  }

  /** A separator-free piece is returned whole when it is all there is. */
  lemma {:induction false} SplitWhole(piece: string, sep: string)
    requires |sep| > 0 && SepFree(piece, sep)
    ensures Split(piece, sep) == [piece]
    decreases |piece|
  {
    if |piece| > 0 {
      SepFreeHead(piece, sep, "");
      SepFreeTail(piece, sep);
      SplitWhole(piece[1..], sep);
      SplitCharStep(piece, sep);
      assert [piece[0]] + piece[1..] == piece;
    }
  }

  /** The step of `SplitPiece`: one more character in front of the piece. */
  lemma SplitPieceStep(piece: string, sep: string, rest: string)
    requires |sep| > 0 && |piece| > 0 && !StartsWith(piece + sep + rest, sep)
    requires Split(piece[1..] + sep + rest, sep) == [piece[1..]] + Split(rest, sep)
    ensures Split(piece + sep + rest, sep) == [piece] + Split(rest, sep)
  {
    var s := piece + sep + rest;
    var tail := Split(rest, sep);
    assert s[0] == piece[0];
    assert s[1..] == piece[1..] + sep + rest;
    SplitCharStep(s, sep);
    var r1 := [piece[1..]] + tail;
    assert r1[0] == piece[1..] && r1[1..] == tail;
    assert [piece[0]] + piece[1..] == piece;
  }

  /** A separator-free piece followed by the separator is cut off as one piece. */
  lemma {:induction false} SplitPiece(piece: string, sep: string, rest: string)
    requires |sep| > 0 && SepFree(piece, sep)
    ensures Split(piece + sep + rest, sep) == [piece] + Split(rest, sep)
    decreases |piece|
  {
    if |piece| == 0 {
      assert piece + sep + rest == sep + rest;
      assert (sep + rest)[|sep|..] == rest;
    } else {
      SepFreeTail(piece, sep);
      SepFreeHead(piece, sep, rest);
      SplitPiece(piece[1..], sep, rest);
      SplitPieceStep(piece, sep, rest);
    }
  }

  /** Splitting a join of separator-free pieces gives the pieces back. */
  lemma {:induction false} SplitJoin(parts: seq<string>, sep: string)
    requires |sep| > 0 && |parts| >= 1
    requires forall k :: 0 <= k < |parts| ==> SepFree(parts[k], sep)
    ensures Split(Join(parts, sep), sep) == parts
    decreases |parts|
  {
    if |parts| == 1 {
      SplitWhole(parts[0], sep);
    } else {
      SplitJoin(parts[1..], sep);
      SplitPiece(parts[0], sep, Join(parts[1..], sep));
      assert [parts[0]] + parts[1..] == parts;
    }
  }

  /** A piece without the character `c` is free of the one-character separator. */
  lemma CharSepFree(piece: string, c: char)
    requires c !in piece
    ensures SepFree(piece, [c])
  {
    forall i | 0 <= i < |piece| ensures !SepAt(piece + [c], [c], i) {
      assert (piece + [c])[i] == piece[i];
    }
  }

  /** Every line break in `s` is followed by a character that is not a line
      break: `s` holds no blank line and does not end in a line break. */
  predicate NoBlankLine(s: string)
  {
    forall i :: 0 <= i < |s| && s[i] == '\n' ==> i + 1 < |s| && s[i + 1] != '\n'
  }

  /** Text without a blank line survives a split on blank lines. */
  lemma ParagraphSepFree(piece: string)
    requires NoBlankLine(piece)
    ensures SepFree(piece, "\n\n")
  {
    forall i | 0 <= i < |piece| ensures !SepAt(piece + "\n\n", "\n\n", i) {
      var w := piece + "\n\n";
      if piece[i] == '\n' {
        assert w[i + 1] == piece[i + 1];
        assert w[i..i + 2][1] == w[i + 1];
      } else {
        assert w[i..i + 2][0] == piece[i];
      }
    }
  }

  /** Joining non-empty parts starts with the first part's first character and
      ends with the last part's last character. */
  lemma {:induction false} JoinFirst(parts: seq<string>, sep: string)
    requires |parts| >= 1 && forall k :: 0 <= k < |parts| ==> parts[k] != ""
    ensures var j := Join(parts, sep);
            (j != "" && j[0] == parts[0][0] && j[|j| - 1] == parts[|parts| - 1][|parts[|parts| - 1]| - 1])
    decreases |parts|
  {
    if |parts| > 1 {
      JoinFirst(parts[1..], sep);
    }
  }

  /** Joining trimmed non-empty parts gives a trimmed text. */
  lemma JoinTrimmed(parts: seq<string>, sep: string)
    requires forall k :: 0 <= k < |parts| ==> parts[k] != "" && IsTrimmed(parts[k])
    ensures IsTrimmed(Join(parts, sep))
  {
    if |parts| >= 1 {
      JoinFirst(parts, sep);
    }
  }

  /** `toLowerCase` on one character, for the ASCII letters. */
  function LowerChar(c: char): char
  {
    if 'A' <= c <= 'Z' then (c as int + 32) as char else c
  }

  /** `toLowerCase` restricted to the ASCII letters. */
  function AsciiLower(s: string): (r: string)
  {
    seq(|s|, i requires 0 <= i < |s| => LowerChar(s[i]))
  }

  /** Lowering twice is lowering once, and it keeps the length. */
  lemma AsciiLowerIdempotent(s: string)
    ensures |AsciiLower(s)| == |s|
    ensures AsciiLower(AsciiLower(s)) == AsciiLower(s)
  {
  }

  /** Lexicographic order on code points: the stand-in for
      `localeCompare(a, b) <= 0`. */
  predicate StrLeq(a: string, b: string)
    decreases |a|
  {
    |a| == 0 || (|b| > 0 && (a[0] < b[0] || (a[0] == b[0] && StrLeq(a[1..], b[1..]))))
  }

  lemma StrLeqTotal(a: string, b: string)
    ensures StrLeq(a, b) || StrLeq(b, a)
    decreases |a|
  {
    if |a| > 0 && |b| > 0 && a[0] == b[0] {
      StrLeqTotal(a[1..], b[1..]);
    }
  }

  lemma StrLeqTransitive(a: string, b: string, c: string)
    requires StrLeq(a, b) && StrLeq(b, c)
    ensures StrLeq(a, c)
    decreases |a|
  {
    if |a| > 0 && a[0] == b[0] && b[0] == c[0] {
      StrLeqTransitive(a[1..], b[1..], c[1..]);
    }
  }

  lemma StrLeqAntisymmetric(a: string, b: string)
    requires StrLeq(a, b) && StrLeq(b, a)
    ensures a == b
    decreases |a|
  {
    if |a| > 0 {
      StrLeqAntisymmetric(a[1..], b[1..]);
      assert a == [a[0]] + a[1..] && b == [b[0]] + b[1..];
    }
  }
}
