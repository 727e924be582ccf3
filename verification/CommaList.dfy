/**
 Comma-separated lists in environment variables, from
 pkg/bootstrap/environment/variables.go.
 */
module CommaList {
  import Split

  const COMMA := ','

  /** The white space of Go's `unicode.IsSpace`. */
  predicate IsSpace(c: char) {
    || '\t' <= c <= '\r' || c == ' ' || c == '\U{85}' || c == '\U{A0}'
    || c == '\U{1680}' || '\U{2000}' <= c <= '\U{200A}' || c == '\U{2028}' || c == '\U{2029}'
    || c == '\U{202F}' || c == '\U{205F}' || c == '\U{3000}'
  }

  /** One by one. */
  lemma WhiteSpace(c: char)
    ensures IsSpace(c) <==>
            c in "\t\n\U{0B}\U{0C}\r \U{85}\U{A0}\U{1680}\U{2000}\U{2001}\U{2002}\U{2003}\U{2004}\U{2005}\U{2006}" +
                 "\U{2007}\U{2008}\U{2009}\U{200A}\U{2028}\U{2029}\U{202F}\U{205F}\U{3000}"
  {
  }

  function TrimLeft(s: string): string {
    if s != [] && IsSpace(s[0]) then TrimLeft(s[1..]) else s
  }

  function TrimRight(s: string): string {
    if s != [] && IsSpace(s[|s| - 1]) then TrimRight(s[..|s| - 1]) else s
  }

  function Trim(s: string): string {
    TrimRight(TrimLeft(s))
  }

  predicate Trimmed(s: string) {
    s == [] || (!IsSpace(s[0]) && !IsSpace(s[|s| - 1]))
  }

  lemma {:induction false} TrimLeftCuts(s: string)
    ensures |TrimLeft(s)| <= |s| && TrimLeft(s) == s[|s| - |TrimLeft(s)|..]
    ensures TrimLeft(s) != [] ==> !IsSpace(TrimLeft(s)[0])
    ensures forall i :: 0 <= i < |s| - |TrimLeft(s)| ==> IsSpace(s[i])
  {
    if s != [] && IsSpace(s[0]) {
      TrimLeftCuts(s[1..]);
      forall i | 0 <= i < |s| - |TrimLeft(s)|
        ensures IsSpace(s[i])
      {
        if i > 0 {
          assert s[i] == s[1..][i - 1];
        }
      }
    }
  }

  lemma {:induction false} TrimRightCuts(s: string)
    ensures |TrimRight(s)| <= |s| && TrimRight(s) == s[..|TrimRight(s)|]
    ensures TrimRight(s) != [] ==> !IsSpace(TrimRight(s)[|TrimRight(s)| - 1])
    ensures forall i :: |TrimRight(s)| <= i < |s| ==> IsSpace(s[i])
  {
    if s != [] && IsSpace(s[|s| - 1]) {
      TrimRightCuts(s[..|s| - 1]);
    }
  }

  /** `Trim` cuts white space off both ends and nothing else. */
  lemma TrimCuts(s: string) returns (lo: nat, hi: nat)
    ensures lo <= hi <= |s| && Trim(s) == s[lo..hi]
    ensures Trimmed(Trim(s))
    ensures forall i :: 0 <= i < lo || hi <= i < |s| ==> IsSpace(s[i])
  {
    TrimLeftCuts(s);
    var left := TrimLeft(s);
    TrimRightCuts(left);
    lo := |s| - |left|;
    hi := lo + |Trim(s)|;
    forall i | hi <= i < |s|
      ensures IsSpace(s[i])
    {
      assert s[i] == left[i - lo];
    }
  }

  lemma TrimmedIsKept(s: string)
    requires Trimmed(s)
    ensures Trim(s) == s
  {
  }

  function TrimAll(parts: seq<string>): seq<string> {
    seq(|parts|, i requires 0 <= i < |parts| => Trim(parts[i]))
  }

  function Parse(value: string): seq<string> {
    TrimAll(Split.Cut(Trim(value), COMMA))
  }

  method ParseCommaSeparatedSlice(value: string) returns (values: seq<string>)
    ensures values == Parse(value)
  {
    var result := Split.Cut(Trim(value), COMMA);
    values := [];
    for i := 0 to |result|
      invariant values == TrimAll(result)[..i]
    {
      values := values + [Trim(result[i])];
    }
  }

  /** What a list can hold: no comma and no outer white space in any entry. */
  ghost predicate Normal(entries: seq<string>) {
    && entries != []
    && Split.Free(entries, COMMA)
    && forall entry :: entry in entries ==> Trimmed(entry)
  }

  lemma ParseIsNormal(value: string)
    ensures Normal(Parse(value))
  {
    var parts := Split.Cut(Trim(value), COMMA);
    Split.CutIsFree(Trim(value), COMMA);
    forall i | 0 <= i < |parts|
      ensures COMMA !in Trim(parts[i]) && Trimmed(Trim(parts[i]))
    {
      var lo, hi := TrimCuts(parts[i]);
      assert parts[i] in parts;
    }
  }

  lemma {:induction false} GluedEnds(entries: seq<string>)
    requires Normal(entries)
    ensures Trimmed(Split.Glue(entries, COMMA))
  {
    if |entries| > 1 {
      GluedEnds(entries[1..]);
      var rest := Split.Glue(entries[1..], COMMA);
      var all := Split.Glue(entries, COMMA);
      assert all == entries[0] + [COMMA] + rest;
      assert Trimmed(entries[0]);
      assert all[0] == if entries[0] == [] then COMMA else entries[0][0];
      assert all[|all| - 1] == if rest == [] then COMMA else rest[|rest| - 1];
    } else {
      assert entries[0] in entries;
    }
  }

  /** Parsing a comma-joined list gives the list back exactly for the normal lists. */
  lemma ParseUndoesGlue(entries: seq<string>)
    ensures Parse(Split.Glue(entries, COMMA)) == entries <==> Normal(entries)
  {
    var joined := Split.Glue(entries, COMMA);
    ParseIsNormal(joined);
    if Normal(entries) {
      GluedEnds(entries);
      TrimmedIsKept(joined);
      Split.CutGlue(entries, COMMA);
      forall i | 0 <= i < |entries|
        ensures Trim(entries[i]) == entries[i]
      {
        TrimmedIsKept(entries[i]);
      }
    }
  }

  /** Re-parsing the joined result of a parse changes nothing, for every input. */
  lemma ParseIsStable(value: string)
    ensures Parse(Split.Glue(Parse(value), COMMA)) == Parse(value)
  {
    ParseIsNormal(value);
    ParseUndoesGlue(Parse(value));
  }
}
