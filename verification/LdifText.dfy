/** LDIF physical and logical lines: folding, reading lines, unfolding. */
module LdifText {
  import opened Common

  // ---------------------------------------------------------------- reading physical lines

  /** Length of the first line of a text, its line feed included. */
  function LineLength(text: string): (n: nat)
    ensures n <= |text| && (text != "" ==> n > 0)
    ensures forall i :: 0 <= i < n - 1 ==> text[i] != '\n'
    ensures n < |text| ==> text[n - 1] == '\n'
  {
    if text == "" then 0
    else if text[0] == '\n' then 1
    else 1 + LineLength(text[1..])
  }

  /** The lines `readline` returns one after the other. */
  function Lines(text: string): (ls: seq<string>)
    ensures forall i :: 0 <= i < |ls| ==> ls[i] != ""
    decreases |text|
  {
    if text == "" then []
    else
      var n := LineLength(text);
      [text[..n]] + Lines(text[n..])
  }

  function StripStart(s: string, c: char): string {
    if s != "" && s[0] == c then StripStart(s[1..], c) else s
  }

  function StripEnd(s: string, c: char): string {
    if s != "" && s[|s| - 1] == c then StripEnd(s[..|s| - 1], c) else s
  }

  function StripChar(s: string, c: char): string {
    StripEnd(StripStart(s, c), c)
  }

  function StripLineSep(s: string): string {
    StripChar(StripChar(s, '\n'), '\r')
  }

  // ---------------------------------------------------------------- unfolding

  predicate Continues(line: string) { line != "" && line[0] == ' ' }

  /** The unfolded line begun as `unfolded`, then those of the remaining physical lines. */
  function UnfoldFrom(unfolded: string, ls: seq<string>): (us: seq<string>)
    ensures us != []
    decreases |ls|
  {
    if ls == [] then [unfolded]
    else if Continues(ls[0]) then UnfoldFrom(unfolded + StripLineSep(ls[0][1..]), ls[1..])
    else [unfolded] + UnfoldFrom(StripLineSep(ls[0]), ls[1..])
  }

  function Unfold(ls: seq<string>): (us: seq<string>)
    ensures us == [] <==> ls == []
  {
    if ls == [] then [] else UnfoldFrom(StripLineSep(ls[0]), ls[1..])
  }

  // ---------------------------------------------------------------- folding

  /** The physical lines of a folded line: `cols` characters, then a space and `cols - 1` characters each. */
  function Pieces(line: string, cols: nat): seq<string>
    requires cols >= 2
  {
    if |line| <= cols then [line] else [line[..cols]] + MorePieces(line[cols..], cols)
  }

  function MorePieces(rest: string, cols: nat): seq<string>
    requires cols >= 2
    decreases |rest|
  {
    if rest == "" then []
    else
      var n := if |rest| < cols - 1 then |rest| else cols - 1;
      [" " + rest[..n]] + MorePieces(rest[n..], cols)
  }

  function Terminated(ps: seq<string>, sep: string): string {
    if ps == [] then "" else ps[0] + sep + Terminated(ps[1..], sep)
  }

  function Fold(line: string, cols: nat, sep: string): string
    requires cols >= 2
  {
    Terminated(Pieces(line, cols), sep)
  }

  // ---------------------------------------------------------------- the shape of folded lines

  /** Physical lines after the first. */
  function MoreCount(n: nat, cols: nat): nat
    requires cols >= 2
  {
    (n + cols - 2) / (cols - 1)
  }

  lemma CeilStep(n: nat, d: nat)
    requires d > 0 && n > 0
    ensures (n + d - 1) / d == 1 + ((if n < d then 0 else n - d) + d - 1) / d
  {
    if n < d {
      assert (n + d - 1) / d == 1 by { DivIsOne(n + d - 1, d); }
      assert (d - 1) / d == 0;
    } else {
      DivStep(n - 1, d);
    }
  }

  lemma DivIsOne(n: nat, d: nat)
    requires 0 < d <= n < 2 * d
    ensures n / d == 1
  {
  }

  lemma DivStep(n: nat, d: nat)
    requires d > 0
    ensures (n + d) / d == 1 + n / d
  {
    var q, r := n / d, n % d;
    assert n + d == (q + 1) * d + r;
    DivIs(n + d, d, q + 1, r);
  }

  lemma {:induction false} MorePiecesCount(rest: string, cols: nat)
    requires cols >= 2
    ensures |MorePieces(rest, cols)| == MoreCount(|rest|, cols)
    decreases |rest|
  {
    if rest == "" {
      DivIs(cols - 2, cols - 1, 0, cols - 2);
    } else {
      var n := if |rest| < cols - 1 then |rest| else cols - 1;
      MorePiecesCount(rest[n..], cols);
      CeilStep(|rest|, cols - 1);
    }
  }

  lemma {:induction false} MorePiecesShape(rest: string, cols: nat, i: nat)
    requires cols >= 2 && i < |MorePieces(rest, cols)|
    ensures var p := MorePieces(rest, cols)[i]; 2 <= |p| <= cols && p[0] == ' '
    decreases i
  {
    if i > 0 {
      var n := if |rest| < cols - 1 then |rest| else cols - 1;
      MorePiecesShape(rest[n..], cols, i - 1);
    }
  }

  /** No physical line is longer than `cols`, continuations start with a space, and there are as many as needed. */
  lemma FoldShape(line: string, cols: nat)
    requires cols >= 2
    ensures var ps := Pieces(line, cols);
            && (forall i :: 0 <= i < |ps| ==> |ps[i]| <= cols)
            && (forall i :: 1 <= i < |ps| ==> |ps[i]| >= 2 && ps[i][0] == ' ')
            && |ps| == (if |line| <= cols then 1 else 1 + MoreCount(|line| - cols, cols))
  {
    if |line| > cols {
      MorePiecesCount(line[cols..], cols);
      forall i | 0 <= i < |MorePieces(line[cols..], cols)| {
        MorePiecesShape(line[cols..], cols, i);
      }
    }
  }

  // ---------------------------------------------------------------- reading back what was folded

  /** Free of line separators. */
  predicate OneLine(s: string) {
    forall i | 0 <= i < |s| :: s[i] != '\n' && s[i] != '\r'
  }

  predicate LineSep(sep: string) { sep == "\n" || sep == "\r\n" }

  lemma {:induction false} LineLengthOf(s: string, sep: string, more: string)
    requires OneLine(s) && LineSep(sep)
    ensures LineLength(s + sep + more) == |s| + |sep|
  {
    var t := s + sep + more;
    if s == "" {
      if sep == "\r\n" {
        assert t[1..] == "\n" + more;
      }
    } else {
      assert t[1..] == s[1..] + sep + more;
      LineLengthOf(s[1..], sep, more);
    }
  }

  lemma LinesCons(s: string, sep: string, more: string)
    requires OneLine(s) && LineSep(sep)
    ensures Lines(s + sep + more) == [s + sep] + Lines(more)
  {
    var t := s + sep + more;
    LineLengthOf(s, sep, more);
    assert t[..|s| + |sep|] == s + sep && t[|s| + |sep|..] == more;
  }

  lemma {:induction false} StripNothing(s: string, c: char)
    requires forall i :: 0 <= i < |s| ==> s[i] != c
    ensures StripChar(s, c) == s
  {
  }

  lemma StripLast(s: string, c: char)
    requires forall i :: 0 <= i < |s| ==> s[i] != c
    ensures StripChar(s + [c], c) == s
  {
    var t := s + [c];
    if s == "" {
      assert t[0] == c && t[1..] == "";
      assert StripStart(t, c) == StripStart("", c) == "";
    } else {
      assert t[0] != c && t[..|t| - 1] == s && s[|s| - 1] != c;
      assert StripEnd(t, c) == StripEnd(s, c) == s;
    }
  }

  lemma StripTerminated(s: string, sep: string)
    requires OneLine(s) && LineSep(sep)
    ensures StripLineSep(s + sep) == s
  {
    if sep == "\n" {
      StripLast(s, '\n');
      StripNothing(s, '\r');
    } else {
      assert s + sep == (s + "\r") + "\n";
      StripLast(s + "\r", '\n');
      StripLast(s, '\r');
    }
  }

  lemma Continuation(unfolded: string, s: string, sep: string, more: string)
    requires OneLine(s) && LineSep(sep)
    ensures UnfoldFrom(unfolded, Lines(" " + s + sep + more)) == UnfoldFrom(unfolded + s, Lines(more))
  {
    hide StripLineSep, Lines;
    LinesCons(" " + s, sep, more);
    assert (" " + s + sep)[1..] == s + sep;
    StripTerminated(s, sep);
    var ls := Lines(" " + s + sep + more);
    assert ls[0] == " " + s + sep && ls[1..] == Lines(more);
  }

  lemma {:induction false} MorePiecesUnfold(unfolded: string, rest: string, cols: nat, sep: string, more: string)
    requires cols >= 2 && OneLine(rest) && LineSep(sep) && !Continues(more)
    ensures UnfoldFrom(unfolded, Lines(Terminated(MorePieces(rest, cols), sep) + more))
         == [unfolded + rest] + Unfold(Lines(more))
    decreases |rest|
  {
    hide StripLineSep, Lines, UnfoldFrom;
    if rest == "" {
      assert Terminated(MorePieces(rest, cols), sep) + more == more;
      assert unfolded + rest == unfolded;
      NextLine(unfolded, more);
    } else {
      var n := if |rest| < cols - 1 then |rest| else cols - 1;
      var front, back := rest[..n], rest[n..];
      var ps := MorePieces(rest, cols);
      assert ps[0] == " " + front && ps[1..] == MorePieces(back, cols);
      var tail := Terminated(MorePieces(back, cols), sep) + more;
      assert Terminated(ps, sep) + more == " " + front + sep + tail;
      Continuation(unfolded, front, sep, tail);
      MorePiecesUnfold(unfolded + front, back, cols, sep, more);
      assert unfolded + front + back == unfolded + rest;
    }
  }

  lemma NextLine(unfolded: string, more: string)
    requires !Continues(more)
    ensures UnfoldFrom(unfolded, Lines(more)) == [unfolded] + Unfold(Lines(more))
  {
    if more != "" {
      var l := Lines(more)[0];
      assert l[0] == more[0];
    }
  }

  lemma FirstOf(s: string, sep: string, more: string)
    requires OneLine(s) && LineSep(sep)
    ensures Unfold(Lines(s + sep + more)) == UnfoldFrom(s, Lines(more))
  {
    hide StripLineSep, Lines, UnfoldFrom;
    LinesCons(s, sep, more);
    StripTerminated(s, sep);
    assert Lines(s + sep + more)[1..] == Lines(more);
  }

  /** Unfolding gives back the folded line, whatever line that is no continuation comes next. */
  lemma UnfoldFold(line: string, cols: nat, sep: string, more: string)
    requires cols >= 2 && OneLine(line) && LineSep(sep) && !Continues(more)
    ensures Unfold(Lines(Fold(line, cols, sep) + more)) == [line] + Unfold(Lines(more))
  {
    hide StripLineSep, Lines, UnfoldFrom, MorePieces;
    var ps := Pieces(line, cols);
    if |line| <= cols {
      assert ps[0] == line && ps[1..] == [];
      assert Terminated(ps, sep) == line + sep + "";
      assert Fold(line, cols, sep) + more == line + sep + more;
      FirstOf(line, sep, more);
      NextLine(line, more);
    } else {
      var front, back := line[..cols], line[cols..];
      var tail := Terminated(MorePieces(back, cols), sep) + more;
      assert ps[0] == front && ps[1..] == MorePieces(back, cols);
      assert Fold(line, cols, sep) + more == front + sep + tail;
      FirstOf(front, sep, tail);
      MorePiecesUnfold(front, back, cols, sep, more);
      assert front + back == line;
    }
  }

  function FoldAll(us: seq<string>, cols: nat, sep: string): string
    requires cols >= 2
  {
    if us == [] then "" else Fold(us[0], cols, sep) + FoldAll(us[1..], cols, sep)
  }

  lemma FoldOne(u: string, cols: nat, sep: string)
    requires cols >= 2
    ensures FoldAll([u], cols, sep) == Fold(u, cols, sep)
  {
    hide Fold;
    assert [u][1..] == [];
    assert FoldAll([u], cols, sep) == Fold(u, cols, sep) + "";
  }

  lemma FoldShort(line: string, cols: nat, sep: string)
    requires cols >= 2 && |line| <= cols
    ensures Fold(line, cols, sep) == line + sep
  {
    var ps := Pieces(line, cols);
    assert ps[0] == line && ps[1..] == [];
    assert Terminated(ps, sep) == line + sep + "";
  }

  lemma FoldLong(line: string, cols: nat, sep: string)
    requires cols >= 2 && |line| > cols
    ensures Fold(line, cols, sep) == line[..cols] + sep + Terminated(MorePieces(line[cols..], cols), sep)
  {
    assert Pieces(line, cols)[1..] == MorePieces(line[cols..], cols);
  }

  lemma FoldMore(line: string, pos: nat, cols: nat, sep: string)
    requires cols >= 2 && pos < |line|
    ensures var n := if pos + cols - 1 <= |line| then pos + cols - 1 else |line|;
            Terminated(MorePieces(line[pos..], cols), sep)
              == " " + line[pos..n] + sep + Terminated(MorePieces(line[n..], cols), sep)
  {
    var n := if pos + cols - 1 <= |line| then pos + cols - 1 else |line|;
    var ps := MorePieces(line[pos..], cols);
    assert line[pos..][..n - pos] == line[pos..n] && line[pos..][n - pos..] == line[n..];
    assert ps[0] == " " + line[pos..n] && ps[1..] == MorePieces(line[n..], cols);
  }

  /** Lines that can be written: no separator inside, no leading space. */
  ghost predicate Writable(us: seq<string>) {
    forall i :: 0 <= i < |us| ==> OneLine(us[i]) && !Continues(us[i])
  }

  lemma FoldAllStart(us: seq<string>, cols: nat, sep: string)
    requires cols >= 2 && LineSep(sep) && Writable(us)
    ensures !Continues(FoldAll(us, cols, sep))
  {
    if us != [] {
      var p := Pieces(us[0], cols)[0];
      assert Fold(us[0], cols, sep) == p + sep + Terminated(Pieces(us[0], cols)[1..], sep);
      assert FoldAll(us, cols, sep)[0] == (p + sep)[0];
    }
  }

  /** Unfolding inverts folding on any sequence of lines, for every width and both line separators. */
  lemma {:induction false} UnfoldFoldAll(us: seq<string>, cols: nat, sep: string)
    requires cols >= 2 && LineSep(sep) && Writable(us)
    ensures Unfold(Lines(FoldAll(us, cols, sep))) == us
  {
    if us != [] {
      FoldAllStart(us[1..], cols, sep);
      UnfoldFold(us[0], cols, sep, FoldAll(us[1..], cols, sep));
      UnfoldFoldAll(us[1..], cols, sep);
    }
  }

  // ---------------------------------------------------------------- LF and CRLF texts

  function Crlf(text: string): string {
    if text == "" then ""
    else (if text[0] == '\n' then "\r\n" else [text[0]]) + Crlf(text[1..])
  }

  lemma {:induction false} CrlfAppend(s: string, t: string)
    ensures Crlf(s + t) == Crlf(s) + Crlf(t)
  {
    if s == "" {
      assert s + t == t;
    } else {
      assert (s + t)[1..] == s[1..] + t;
      CrlfAppend(s[1..], t);
    }
  }

  lemma {:induction false} CrlfOneLine(s: string)
    requires forall i :: 0 <= i < |s| ==> s[i] != '\n'
    ensures Crlf(s) == s
  {
    if s != "" {
      CrlfOneLine(s[1..]);
    }
  }

  lemma {:induction false} LineLengthWhole(s: string)
    requires forall i :: 0 <= i < |s| ==> s[i] != '\n'
    ensures LineLength(s) == |s|
  {
    if s != "" {
      LineLengthWhole(s[1..]);
    }
  }

  predicate NoCr(text: string) {
    forall i | 0 <= i < |text| :: text[i] != '\r'
  }

  /** The first line of a text and what is left; only a last line can lack its line feed. */
  lemma FirstLine(text: string) returns (s: string, more: string, ended: bool)
    requires text != "" && NoCr(text)
    ensures |more| < |text| && NoCr(more)
    ensures ended ==> OneLine(s) && text == s + "\n" + more
    ensures !ended ==> forall i :: 0 <= i < |text| ==> text[i] != '\n'
  {
    var n := LineLength(text);
    more := text[n..];
    ended := text[n - 1] == '\n';
    s := if ended then text[..n - 1] else text;
    if !ended {
      assert n == |text|;
    }
  }

  lemma CrlfFirst(s: string, more: string)
    requires OneLine(s)
    ensures Crlf(s + "\n" + more) == s + "\r\n" + Crlf(more)
  {
    CrlfAppend(s + "\n", more);
    CrlfAppend(s, "\n");
    CrlfOneLine(s);
    assert "\n"[1..] == "" && Crlf("\n") == "\r\n";
  }

  /** A line read with either separator has the same content, as a first line and as a continuation. */
  lemma SameContent(s: string)
    requires OneLine(s)
    ensures Continues(s + "\r\n") == Continues(s + "\n")
    ensures StripLineSep(s + "\r\n") == StripLineSep(s + "\n")
    ensures Continues(s + "\n") ==> StripLineSep((s + "\r\n")[1..]) == StripLineSep((s + "\n")[1..])
  {
    StripTerminated(s, "\n");
    StripTerminated(s, "\r\n");
    if s != "" {
      assert (s + "\n")[1..] == s[1..] + "\n" && (s + "\r\n")[1..] == s[1..] + "\r\n";
      StripTerminated(s[1..], "\n");
      StripTerminated(s[1..], "\r\n");
    }
  }

  lemma {:induction false} UnfoldFromCrlf(unfolded: string, text: string)
    requires NoCr(text)
    ensures UnfoldFrom(unfolded, Lines(Crlf(text))) == UnfoldFrom(unfolded, Lines(text))
    decreases |text|
  {
    hide Lines, Crlf, StripLineSep, Continues;
    if text == "" {
      assert Crlf(text) == text by { CrlfOneLine(text); }
    } else {
      var s, more, ended := FirstLine(text);
      if ended {
        CrlfFirst(s, more);
        LinesCons(s, "\n", more);
        LinesCons(s, "\r\n", Crlf(more));
        var ls, ls' := Lines(text), Lines(Crlf(text));
        assert ls[0] == s + "\n" && ls[1..] == Lines(more);
        assert ls'[0] == s + "\r\n" && ls'[1..] == Lines(Crlf(more));
        SameContent(s);
        UnfoldFromCrlf(unfolded + StripLineSep(ls[0][1..]), more);
        UnfoldFromCrlf(StripLineSep(ls[0]), more);
      } else {
        CrlfOneLine(text);
      }
    }
  }

  /** A text without CR unfolds to the same lines when every LF becomes CRLF. */
  lemma UnfoldCrlf(text: string)
    requires NoCr(text)
    ensures Unfold(Lines(Crlf(text))) == Unfold(Lines(text))
  {
    hide Lines, Crlf, StripLineSep;
    if text == "" {
      assert Crlf(text) == text by { CrlfOneLine(text); }
    } else {
      var s, more, ended := FirstLine(text);
      if ended {
        CrlfFirst(s, more);
        FirstOf(s, "\n", more);
        FirstOf(s, "\r\n", Crlf(more));
        UnfoldFromCrlf(s, more);
      } else {
        CrlfOneLine(text);
      }
    }
  }
}
