/**
 Request paths built from fixed parts and names (pkg/common/utils.go).
 */
module PathBuilder {
  import opened Options
  import opened Escape
  import Split

  datatype Field = Fixed(text: Bytes) | Plain(text: Bytes) | Escaped(text: Bytes)

  function Segment(f: Field): Bytes {
    if f.Escaped? then URLEncode(f.text) else f.text
  }

  function Segments(fields: seq<Field>): seq<Bytes> {
    seq(|fields|, i requires 0 <= i < |fields| => Segment(fields[i]))
  }

  /** Each segment followed by a slash. */
  function Terminated(segments: seq<Bytes>): Bytes {
    if segments == [] then []
    else Terminated(segments[..|segments| - 1]) + segments[|segments| - 1] + [SLASH]
  }

  lemma TerminatedAppend(fields: seq<Field>, field: Field)
    ensures Terminated(Segments(fields + [field])) == Terminated(Segments(fields)) + Segment(field) + [SLASH]
  {
    var segments := Segments(fields + [field]);
    assert segments[..|segments| - 1] == Segments(fields);
    assert segments[|segments| - 1] == Segment(field);
  }

  lemma {:induction false} TerminatedIsGlued(segments: seq<Bytes>)
    requires segments != []
    ensures Terminated(segments) == Split.Glue(segments, SLASH) + [SLASH]
  {
    var before, last := segments[..|segments| - 1], segments[|segments| - 1];
    assert segments == before + [last];
    if before == [] {
      assert Terminated(before) == [];
    } else {
      TerminatedIsGlued(before);
      Split.GlueAppend(before, last, SLASH);
    }
  }

  function TrimSlash(s: Bytes): Bytes {
    if s != [] && s[|s| - 1] == SLASH then s[..|s| - 1] else s
  }

  class Builder {
    var sb: Bytes
    var enableNameFieldEscape: bool
    /** What has been set so far. */
    ghost var fields: seq<Field>

    ghost predicate Valid()
      reads this
    {
      sb == Terminated(Segments(fields))
    }

    constructor ()
      ensures Valid() && fields == [] && !enableNameFieldEscape
    {
      sb, enableNameFieldEscape, fields := [], false, [];
    }

    method EnableNameFieldEscape(enable: bool)
      requires Valid()
      modifies this`enableNameFieldEscape
      ensures Valid() && enableNameFieldEscape == enable
    {
      enableNameFieldEscape := enable;
    }

    method SetPath(path: Bytes)
      requires Valid()
      modifies this`sb, this`fields
      ensures Valid() && fields == old(fields) + [Fixed(path)]
    {
      TerminatedAppend(fields, Fixed(path));
      sb := sb + path + [SLASH];
      fields := fields + [Fixed(path)];
    }

    method SetNameFieldPath(namePath: Bytes)
      requires Valid()
      modifies this`sb, this`fields
      ensures Valid()
      ensures fields == old(fields) + [if enableNameFieldEscape then Escaped(namePath) else Plain(namePath)]
    {
      ghost var field := if enableNameFieldEscape then Escaped(namePath) else Plain(namePath);
      TerminatedAppend(fields, field);
      var segment := if enableNameFieldEscape then URLEncode(namePath) else namePath;
      sb := sb + segment + [SLASH];
      fields := fields + [field];
    }

    /** The segments joined by slashes. */
    method BuildPath() returns (path: Bytes)
      requires Valid()
      ensures path == Split.Glue(Segments(fields), SLASH)
    {
      if fields != [] {
        TerminatedIsGlued(Segments(fields));
      }
      path := TrimSlash(sb);
    }
  }

  /** A field whose text cannot be mistaken for several: it is escaped, or has no slash. */
  predicate Contained(f: Field) {
    f.Escaped? || SLASH !in f.text
  }

  /**
   Splitting a built path at its slashes gives the segments back exactly when at
   least one field was set and every unescaped field is free of slashes; escaped
   names then decode to themselves, slashes and all.
   */
  lemma SplitUndoesBuild(fields: seq<Field>)
    ensures var path := Split.Glue(Segments(fields), SLASH);
            && (Split.Cut(path, SLASH) == Segments(fields) <==>
                fields != [] && forall f :: f in fields ==> Contained(f))
            && (Split.Cut(path, SLASH) == Segments(fields) ==>
                  forall i :: 0 <= i < |fields| ==>
                                var piece := Split.Cut(path, SLASH)[i];
                                if fields[i].Escaped?
                                then Decode(piece) == Some(fields[i].text) && URLEncode(fields[i].text) == piece
                                else piece == fields[i].text)
  {
    var segments := Segments(fields);
    Split.CutUndoesGlue(segments, SLASH);
    forall i | 0 <= i < |fields|
      ensures SLASH !in segments[i] <==> Contained(fields[i])
      ensures if fields[i].Escaped?
              then Decode(segments[i]) == Some(fields[i].text) && URLEncode(fields[i].text) == segments[i]
              else segments[i] == fields[i].text
    {
      if fields[i].Escaped? {
        EscapedNamesAreClean(fields[i].text);
        EscapingIsInvertible(fields[i].text);
      }
    }
    if Split.Free(segments, SLASH) {
      forall f | f in fields
        ensures Contained(f)
      {
        var i :| 0 <= i < |fields| && fields[i] == f;
        assert segments[i] in segments;
      }
    }
  }
}
