/**
 Splitting a sequence at a separator and joining it back, as Go's
 `strings.Split` and `strings.Join` do for a one-character separator.
 Configuration paths (characters), comma lists (characters) and request paths
 (bytes) are all cut and glued this way.
 */
module Split {

  /** The pieces of `s` between separators; never empty, `Cut([])` is `[[]]`. */
  function Cut<T(==)>(s: seq<T>, sep: T): (parts: seq<seq<T>>)
    ensures parts != []
  {
    if s == [] then [[]]
    else
      var rest := Cut(s[1..], sep);
      if s[0] == sep then [[]] + rest else [[s[0]] + rest[0]] + rest[1..]
  }

  function Glue<T>(parts: seq<seq<T>>, sep: T): seq<T> {
    if parts == [] then []
    else if |parts| == 1 then parts[0]
    else parts[0] + [sep] + Glue(parts[1..], sep)
  }

  ghost predicate Free<T>(parts: seq<seq<T>>, sep: T) {
    forall part :: part in parts ==> sep !in part
  }

  lemma {:induction false} CutIsFree<T>(s: seq<T>, sep: T)
    ensures Free(Cut(s, sep), sep)
  {
    if s != [] {
      CutIsFree(s[1..], sep);
    }
  }

  lemma {:induction false} GlueCut<T>(s: seq<T>, sep: T)
    ensures Glue(Cut(s, sep), sep) == s
  {
    if s != [] {
      GlueCut(s[1..], sep);
      var rest := Cut(s[1..], sep);
      if s[0] == sep {
        assert Cut(s, sep)[1..] == rest;
      } else {
        assert Cut(s, sep)[1..] == rest[1..];
      }
      assert s == [s[0]] + s[1..];
    }
  }

  /** Cutting a piece without separators, followed by a separator or by nothing. */
  lemma {:induction false} CutPiece<T>(piece: seq<T>, sep: T)
    requires sep !in piece
    ensures Cut(piece, sep) == [piece]
    ensures forall tail :: Cut(piece + [sep] + tail, sep) == [piece] + Cut(tail, sep)
  {
    if piece == [] {
      forall tail
        ensures Cut(piece + [sep] + tail, sep) == [piece] + Cut(tail, sep)
      {
        assert (piece + [sep] + tail)[1..] == tail;
      }
    } else {
      CutPiece(piece[1..], sep);
      assert [piece[0]] + piece[1..] == piece;
      forall tail
        ensures Cut(piece + [sep] + tail, sep) == [piece] + Cut(tail, sep)
      {
        assert (piece + [sep] + tail)[1..] == piece[1..] + [sep] + tail;
        var rest := Cut(piece[1..] + [sep] + tail, sep);
        assert rest[0] == piece[1..] && rest[1..] == Cut(tail, sep);
      }
    }
  }

  lemma {:induction false} CutGlue<T>(parts: seq<seq<T>>, sep: T)
    requires parts != [] && Free(parts, sep)
    ensures Cut(Glue(parts, sep), sep) == parts
  {
    CutPiece(parts[0], sep);
    if |parts| > 1 {
      CutGlue(parts[1..], sep);
      assert Glue(parts, sep) == parts[0] + [sep] + Glue(parts[1..], sep);
    }
  }

  /** Cutting undoes gluing exactly for the non-empty lists of separator-free pieces. */
  lemma CutUndoesGlue<T>(parts: seq<seq<T>>, sep: T)
    ensures Cut(Glue(parts, sep), sep) == parts <==> parts != [] && Free(parts, sep)
  {
    CutIsFree(Glue(parts, sep), sep);
    if parts != [] && Free(parts, sep) {
      CutGlue(parts, sep);
    }
  }

  /** Two or more pieces are glued by at least one separator. */
  lemma GlueContainsSeparator<T>(parts: seq<seq<T>>, sep: T)
    requires |parts| >= 2
    ensures sep in Glue(parts, sep)
  {
    assert Glue(parts, sep)[|parts[0]|] == sep;
  }

  lemma {:induction false} GlueAppend<T>(parts: seq<seq<T>>, last: seq<T>, sep: T)
    requires parts != []
    ensures Glue(parts + [last], sep) == Glue(parts, sep) + [sep] + last
  {
    if |parts| == 1 {
      assert (parts + [last])[1..] == [last];
    } else {
      GlueAppend(parts[1..], last, sep);
      assert (parts + [last])[1..] == parts[1..] + [last];
    }
  }
}
