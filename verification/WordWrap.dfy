/** Printing a text in lines no wider than the terminal (src/ptrim-lib.cc, format_print). */
module WordWrap {

  /** Where the search for a space that starts at i and goes down to offset stops. */
  function LastSpace(s: string, offset: nat, i: nat): (r: nat)
    requires offset <= i < |s|
    ensures offset <= r <= i
    ensures r > offset ==> s[r] == ' '
    ensures forall k | r < k <= i :: s[k] != ' '
  {
    if s[i] != ' ' && i > offset then LastSpace(s, offset, i - 1) else i
  }

  /** Where the piece that starts at offset stops. */
  function Stop(s: string, offset: nat, width: nat): (r: nat)
    requires offset < |s| && width >= 1
    ensures offset < r <= |s|
  {
    if |s| - offset > width then
      var i := LastSpace(s, offset, offset + width);
      if i != offset then i else offset + width
    else |s|
  }

  /** The pieces of the text from offset on. */
  function Pieces(s: string, offset: nat, width: nat): seq<string>
    requires offset <= |s| && width >= 1
    decreases |s| - offset
  {
    if offset == |s| then []
    else [s[offset..Stop(s, offset, width)]] + Pieces(s, Stop(s, offset, width), width)
  }

  function Concat(pieces: seq<string>): string {
    if pieces == [] then "" else pieces[0] + Concat(pieces[1..])
  }

  /** The pieces make up exactly the text. */
  lemma {:induction false} PiecesCover(s: string, offset: nat, width: nat)
    requires offset <= |s| && width >= 1
    ensures Concat(Pieces(s, offset, width)) == s[offset..]
    decreases |s| - offset
  {
    if offset == |s| {
    } else {
      var stop := Stop(s, offset, width);
      PiecesCover(s, stop, width);
      assert Pieces(s, offset, width)[1..] == Pieces(s, stop, width);
      assert s[offset..] == s[offset..stop] + s[stop..];
    }
  }

  /** How a good piece ends: at the end of the text, before the last space that
      leaves it within the width, or at the full width if there is no such space. */
  predicate GoodStop(s: string, offset: nat, width: nat, stop: nat) {
    && offset < stop <= |s| && stop - offset <= width
    && (stop == |s|
        || (s[stop] == ' ' && |s| - offset > width && forall k | stop < k <= offset + width :: s[k] != ' ')
        || (stop == offset + width && forall k | offset < k <= offset + width :: s[k] != ' '))
    && (|s| - offset <= width ==> stop == |s|)
  }

  /** The positions between the pieces. */
  function Start(s: string, width: nat, n: nat): (r: nat)
    requires width >= 1
    ensures r <= |s|
  {
    if n == 0 then 0
    else
      var p := Start(s, width, n - 1);
      if p < |s| then Stop(s, p, width) else p
  }

  lemma {:induction false} PieceAt(s: string, offset: nat, width: nat, m: nat, n: nat)
    requires width >= 1 && offset == Start(s, width, m) && n < |Pieces(s, offset, width)|
    ensures Start(s, width, m + n) < |s|
    ensures Pieces(s, offset, width)[n] == s[Start(s, width, m + n)..Start(s, width, m + n + 1)]
    decreases n
  {
    hide Stop, LastSpace;
    assert Start(s, width, m + 1) == if offset < |s| then Stop(s, offset, width) else offset;
    if n == 0 {
    } else {
      var next := Stop(s, offset, width);
      assert Pieces(s, offset, width)[n] == Pieces(s, next, width)[n - 1];
      PieceAt(s, next, width, m + 1, n - 1);
    }
  }

  lemma StopIsGood(s: string, offset: nat, width: nat)
    requires offset < |s| && width >= 1
    ensures GoodStop(s, offset, width, Stop(s, offset, width))
  {
  }

  /** There is no other place a good piece could end. */
  lemma GoodStopIsUnique(s: string, offset: nat, width: nat, stop: nat)
    requires offset < |s| && width >= 1 && GoodStop(s, offset, width, stop)
    ensures stop == Stop(s, offset, width)
  {
    StopIsGood(s, offset, width);
    var other := Stop(s, offset, width);
    if stop < other { assert other <= offset + width; } else if other < stop { assert stop <= offset + width; }
  }

  /** Every piece of a text, in order, ends where it should and is never empty or too wide. */
  lemma PiecesAreGood(s: string, width: nat, n: nat)
    requires width >= 1 && n < |Pieces(s, 0, width)|
    ensures var from, to := Start(s, width, n), Start(s, width, n + 1);
            && GoodStop(s, from, width, to) && Pieces(s, 0, width)[n] == s[from..to]
            && 1 <= |Pieces(s, 0, width)[n]| <= width
  {
    PieceAt(s, 0, width, 0, n);
    StopIsGood(s, Start(s, width, n), width);
  }

  const INDENT := "   "

  function Indent(tab: nat): (r: string)
    ensures |r| == 3 * tab && forall k | 0 <= k < |r| :: r[k] == ' '
  {
    if tab == 0 then "" else Indent(tab - 1) + INDENT
  }

  function Indented(tab: nat, pieces: seq<string>): (r: seq<string>)
    ensures |r| == |pieces| && forall k | 0 <= k < |r| :: r[k] == Indent(tab) + pieces[k]
  {
    seq(|pieces|, k requires 0 <= k < |pieces| => Indent(tab) + pieces[k])
  }

  method FindStop(s: string, offset: nat, width: nat) returns (stop: nat)
    requires offset < |s| && width >= 1
    ensures stop == Stop(s, offset, width)
  {
    if |s| - offset > width {
      stop := offset + width;
      var i := offset + width;
      while s[i] != ' ' && i > offset
        invariant offset <= i <= offset + width
        invariant LastSpace(s, offset, i) == LastSpace(s, offset, offset + width)
        decreases i
      {
        i := i - 1;
      }
      if i != offset {
        stop := i;
      }
    } else {
      stop := |s|;
    }
  }

  /** Prints a text, indented, on a terminal with the given number of columns. */
  method FormatPrint(tab: nat, s: string, columns: nat) returns (printed: seq<string>)
    requires columns > 3 * tab
    ensures printed == if s == "" then [""] else Indented(tab, Pieces(s, 0, columns - 3 * tab))
  {
    var width := columns - tab * 3;
    printed := [];
    if |s| == 0 {
      printed := [""];
    }
    var offset := 0;
    while offset < |s|
      invariant 0 <= offset <= |s|
      invariant s != "" ==> printed + Indented(tab, Pieces(s, offset, width)) == Indented(tab, Pieces(s, 0, width))
      invariant s == "" ==> printed == [""]
    {
      var stop := FindStop(s, offset, width);
      var line := "";
      for i := 0 to tab
        invariant line == Indent(i)
      {
        line := line + "   ";
      }
      for i := offset to stop
        invariant line == Indent(tab) + s[offset..i]
      {
        line := line + [s[i]];
      }
      printed := printed + [line];
      offset := stop;
    }
  }
}
