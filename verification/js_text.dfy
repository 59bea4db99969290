/**
 The string operations the input parsers of app.js are built from:
 `String.prototype.trim`, `String.prototype.split(',')`, and the
 `split(',').map(trim).filter(non-empty)` chain both parsers share.
 */
module JsText {

  /** The characters `trim` removes: ECMAScript WhiteSpace and LineTerminator code points. */
  predicate IsWhitespace(c: char) {
    || c == '\t' || c == '\n' || c == '\U{B}' || c == '\U{C}' || c == '\r' || c == ' '
    || c == '\U{A0}' || c == '\U{1680}' || ('\U{2000}' <= c <= '\U{200A}')
    || c == '\U{2028}' || c == '\U{2029}' || c == '\U{202F}' || c == '\U{205F}'
    || c == '\U{3000}' || c == '\U{FEFF}'
  }

  predicate AllWhitespace(s: string) {
    forall i :: 0 <= i < |s| ==> IsWhitespace(s[i])
  }

  /** Drops the leading whitespace. */
  function TrimStart(s: string): string {
    if s != [] && IsWhitespace(s[0]) then TrimStart(s[1..]) else s
  }

  /** Drops the trailing whitespace. */
  function TrimEnd(s: string): string {
    if s != [] && IsWhitespace(s[|s| - 1]) then TrimEnd(s[..|s| - 1]) else s
  }

  /** What `TrimStart` leaves is a suffix that does not start with whitespace, and all it drops is whitespace. */
  lemma {:induction false} TrimStartSpec(s: string)
    ensures var r := TrimStart(s);
      && |r| <= |s| && r == s[|s| - |r|..]
      && AllWhitespace(s[..|s| - |r|])
      && (r == [] || !IsWhitespace(r[0]))
    decreases |s|
  {
    if s != [] && IsWhitespace(s[0]) {
      TrimStartSpec(s[1..]);
      var r := TrimStart(s[1..]);
      assert s[..|s| - |r|] == [s[0]] + s[1..][..|s| - 1 - |r|];
    }
  }

  /** What `TrimEnd` leaves is a prefix that does not end with whitespace, and all it drops is whitespace. */
  lemma {:induction false} TrimEndSpec(s: string)
    ensures var r := TrimEnd(s);
      && |r| <= |s| && r == s[..|r|]
      && AllWhitespace(s[|r|..])
      && (r == [] || !IsWhitespace(r[|r| - 1]))
    decreases |s|
  {
    if s != [] && IsWhitespace(s[|s| - 1]) {
      TrimEndSpec(s[..|s| - 1]);
      var r := TrimEnd(s[..|s| - 1]);
      assert s[|r|..] == s[..|s| - 1][|r|..] + [s[|s| - 1]];
    }
  }

  /** `String.prototype.trim`. */
  function Trim(s: string): string {
    TrimEnd(TrimStart(s))
  }

  lemma {:induction false} TrimStartSkips(p: string, t: string)
    requires AllWhitespace(p)
    ensures TrimStart(p + t) == TrimStart(t)
    decreases |p|
  {
    if p != [] {
      assert (p + t)[0] == p[0] && IsWhitespace(p[0]);
      assert (p + t)[1..] == p[1..] + t;
      assert AllWhitespace(p[1..]);
      TrimStartSkips(p[1..], t);
    } else {
      assert p + t == t;
    }
  }

  lemma {:induction false} TrimEndSkips(t: string, q: string)
    requires AllWhitespace(q)
    ensures TrimEnd(t + q) == TrimEnd(t)
    decreases |q|
  {
    if q != [] {
      assert (t + q)[|t + q| - 1] == q[|q| - 1] && IsWhitespace(q[|q| - 1]);
      assert (t + q)[..|t + q| - 1] == t + q[..|q| - 1];
      assert AllWhitespace(q[..|q| - 1]);
      TrimEndSkips(t, q[..|q| - 1]);
    } else {
      assert t + q == t;
    }
  }

  /**
   Reference definition of `trim`: whenever `s` is whitespace `p`, then a
   core `m` that neither starts nor ends with whitespace, then whitespace `q`,
   trimming `s` yields exactly `m`.
   */
  lemma TrimUnique(p: string, m: string, q: string)
    requires AllWhitespace(p) && AllWhitespace(q)
    requires m == [] || (!IsWhitespace(m[0]) && !IsWhitespace(m[|m| - 1]))
    ensures Trim(p + m + q) == m
  {
    assert p + m + q == p + (m + q);
    TrimStartSkips(p, m + q);
    if m == [] {
      assert m + q == q;
      TrimStartSkips(q, []);
      assert q + [] == q;
    } else {
      assert TrimStart(m + q) == m + q;
    }
    TrimEndSkips(m, q);
  }

  /** A string with no whitespace at either end is left as it is. */
  lemma TrimClean(m: string)
    requires m == [] || (!IsWhitespace(m[0]) && !IsWhitespace(m[|m| - 1]))
    ensures Trim(m) == m
  {
    assert TrimStart(m) == m;
  }

  /** Trimming yields a whitespace-free border, so trimming twice changes nothing. */
  lemma TrimIdempotent(s: string)
    ensures Trim(Trim(s)) == Trim(s)
  {
    var t := TrimStart(s);
    TrimStartSpec(s);
    TrimEndSpec(t);
    var r := Trim(s);
    assert r == [] || (r[0] == t[0] && !IsWhitespace(r[0]) && !IsWhitespace(r[|r| - 1]));
    TrimClean(r);
  }

  /** A string trims to the empty string exactly when it is all whitespace. */
  lemma TrimEmptyIffBlank(s: string)
    ensures Trim(s) == [] <==> AllWhitespace(s)
  {
    var t := TrimStart(s);
    TrimStartSpec(s);
    TrimEndSpec(t);
    if AllWhitespace(s) {
      assert s + [] == s;
      TrimStartSkips(s, []);
    }
    if Trim(s) == [] {
      assert t[0..] == t;
      assert t == [];
      assert s[..|s|] == s;
    }
  }

  /**
   `String.prototype.split` with a one-character separator: the separator-free
   pieces between separators, in order; never fewer than one piece.
   */
  function Split(s: string, sep: char): (r: seq<string>)
    ensures |r| >= 1
    decreases |s|
  {
    if s == [] then [[]]
    else
      var rest := Split(s[1..], sep);
      if s[0] == sep then [[]] + rest
      else [[s[0]] + rest[0]] + rest[1..]
  }

  /** No piece contains the separator. */
  lemma {:induction false} SplitPiecesLackSeparator(s: string, sep: char)
    ensures forall i :: 0 <= i < |Split(s, sep)| ==> sep !in Split(s, sep)[i]
    decreases |s|
  {
    if s != [] {
      SplitPiecesLackSeparator(s[1..], sep);
    }
  }

  /** `Array.prototype.join` with a one-character separator. */
  function Join(parts: seq<string>, sep: char): string
    requires |parts| >= 1
  {
    if |parts| == 1 then parts[0] else parts[0] + [sep] + Join(parts[1..], sep)
  }

  /** Joining the pieces back with the separator restores the original string. */
  lemma {:induction false} JoinSplit(s: string, sep: char)
    ensures Join(Split(s, sep), sep) == s
    decreases |s|
  {
    if s != [] {
      var rest := Split(s[1..], sep);
      JoinSplit(s[1..], sep);
      if s[0] == sep {
        assert Join(Split(s, sep), sep) == [] + [sep] + Join(rest, sep);
        assert s == [s[0]] + s[1..];
      } else if |rest| == 1 {
        assert s == [s[0]] + s[1..];
      } else {
        var r := Split(s, sep);
        assert r[1..] == rest[1..];
        calc {
          Join(r, sep);
          ([s[0]] + rest[0]) + [sep] + Join(rest[1..], sep);
          [s[0]] + (rest[0] + [sep] + Join(rest[1..], sep));
          [s[0]] + s[1..];
          s;
        }
      }
    }
  }

  /** A string without the separator is one piece. */
  lemma {:induction false} SplitNoSeparator(s: string, sep: char)
    requires sep !in s
    ensures Split(s, sep) == [s]
    decreases |s|
  {
    if s != [] {
      SplitNoSeparator(s[1..], sep);
      assert s == [s[0]] + s[1..];
    }
  }

  /** One step of `Split`: how a leading character joins the pieces of the rest. */
  lemma SplitCons(c: char, t: string, sep: char)
    ensures Split([c] + t, sep) ==
      if c == sep then [[]] + Split(t, sep) else [[c] + Split(t, sep)[0]] + Split(t, sep)[1..]
  {
  }

  /** The step of `SplitCons` on pieces already computed, kept apart from `Split` so the list algebra stays small. */
  lemma PiecesConsAppend(c: char, rt: seq<string>, ru: seq<string>, rb: seq<string>, sep: char)
    requires rt == ru + rb && |ru| >= 1
    ensures (if c == sep then [[]] + rt else [[c] + rt[0]] + rt[1..]) ==
            (if c == sep then [[]] + ru else [[c] + ru[0]] + ru[1..]) + rb
  {
  }

  /** Splitting distributes over a separator: the pieces of `a` come first, then those of `b`. */
  lemma {:induction false} SplitAppend(a: string, sep: char, b: string)
    ensures Split(a + [sep] + b, sep) == Split(a, sep) + Split(b, sep)
    decreases |a|
  {
    if a == [] {
      assert a + [sep] + b == [sep] + b;
      SplitCons(sep, b, sep);
    } else {
      var t := a[1..] + [sep] + b;
      assert a + [sep] + b == [a[0]] + t;
      assert a == [a[0]] + a[1..];
      SplitAppend(a[1..], sep, b);
      SplitCons(a[0], t, sep);
      SplitCons(a[0], a[1..], sep);
      PiecesConsAppend(a[0], Split(t, sep), Split(a[1..], sep), Split(b, sep), sep);
    }
  }

  /** Splitting is the inverse of joining separator-free pieces. */
  lemma {:induction false} SplitJoin(parts: seq<string>, sep: char)
    requires |parts| >= 1
    requires forall i :: 0 <= i < |parts| ==> sep !in parts[i]
    ensures Split(Join(parts, sep), sep) == parts
    decreases |parts|
  {
    SplitNoSeparator(parts[0], sep);
    if |parts| > 1 {
      SplitJoin(parts[1..], sep);
      SplitAppend(parts[0], sep, Join(parts[1..], sep));
      assert parts == [parts[0]] + parts[1..];
    }
  }

  /** `.map((s) => s.trim())`. */
  function TrimAll(parts: seq<string>): (r: seq<string>)
    ensures |r| == |parts|
    ensures forall i :: 0 <= i < |parts| ==> r[i] == Trim(parts[i])
  {
    if parts == [] then [] else [Trim(parts[0])] + TrimAll(parts[1..])
  }

  /** `.filter(Boolean)` on strings: keeps the non-empty ones. */
  function DropEmpty(parts: seq<string>): (r: seq<string>)
    ensures |r| <= |parts|
    ensures forall i :: 0 <= i < |r| ==> r[i] != []
  {
    if parts == [] then []
    else if parts[0] == [] then DropEmpty(parts[1..])
    else [parts[0]] + DropEmpty(parts[1..])
  }

  /** Filtering drops nothing but empty strings: every kept element has any property all elements share. */
  lemma {:induction false} DropEmptyKeepsProperty(parts: seq<string>, P: string -> bool)
    requires forall i :: 0 <= i < |parts| ==> P(parts[i])
    ensures forall i :: 0 <= i < |DropEmpty(parts)| ==> P(DropEmpty(parts)[i])
    decreases |parts|
  {
    if parts != [] {
      DropEmptyKeepsProperty(parts[1..], P);
    }
  }

  /** Filtering leaves nothing exactly when every element is empty. */
  lemma {:induction false} DropEmptyNoneIff(parts: seq<string>)
    ensures DropEmpty(parts) == [] <==> forall i :: 0 <= i < |parts| ==> parts[i] == []
    decreases |parts|
  {
    if parts != [] {
      DropEmptyNoneIff(parts[1..]);
      assert forall i :: 1 <= i < |parts| ==> parts[i] == parts[1..][i - 1];
    }
  }

  /** Filtering keeps order: it distributes over concatenation. */
  lemma {:induction false} DropEmptyAppend(a: seq<string>, b: seq<string>)
    ensures DropEmpty(a + b) == DropEmpty(a) + DropEmpty(b)
    decreases |a|
  {
    if a != [] {
      assert (a + b)[0] == a[0];
      assert (a + b)[1..] == a[1..] + b;
      DropEmptyAppend(a[1..], b);
    } else {
      assert a + b == b;
    }
  }

  lemma {:induction false} TrimAllAppend(a: seq<string>, b: seq<string>)
    ensures TrimAll(a + b) == TrimAll(a) + TrimAll(b)
    decreases |a|
  {
    if a == [] {
      assert a + b == b;
    } else {
      assert (a + b)[0] == a[0];
      assert (a + b)[1..] == a[1..] + b;
      TrimAllAppend(a[1..], b);
    }
  }

  /**
   `s.split(',').map((s) => s.trim()).filter(Boolean)`, the segment list both
   the shape parser and the data parser's comma path work on.
   */
  function Segments(s: string): seq<string> {
    DropEmpty(TrimAll(Split(s, ',')))
  }

  /** Every segment is non-empty, already trimmed, and free of commas. */
  lemma SegmentsAreTrimmedPieces(s: string)
    ensures forall i :: 0 <= i < |Segments(s)| ==>
      Segments(s)[i] != [] && Trim(Segments(s)[i]) == Segments(s)[i] && ',' !in Segments(s)[i]
  {
    var pieces := Split(s, ',');
    var trimmed := TrimAll(pieces);
    SplitPiecesLackSeparator(s, ',');
    forall i | 0 <= i < |trimmed| ensures Trim(trimmed[i]) == trimmed[i] && ',' !in trimmed[i] {
      TrimIdempotent(pieces[i]);
      TrimIsInfix(pieces[i]);
    }
    DropEmptyKeepsProperty(trimmed, t => Trim(t) == t && ',' !in t);
  }

  /**
   The trimmed string is a contiguous infix of the original with only
   whitespace on either side of it; hence every character of it comes from
   the original.
   */
  lemma TrimIsInfix(s: string)
    ensures exists i ::
              && 0 <= i <= |s| - |Trim(s)| && Trim(s) == s[i..i + |Trim(s)|]
              && AllWhitespace(s[..i]) && AllWhitespace(s[i + |Trim(s)|..])
    ensures forall c :: c in Trim(s) ==> c in s
  {
    var t := TrimStart(s);
    TrimStartSpec(s);
    TrimEndSpec(t);
    var r := Trim(s);
    var i := |s| - |t|;
    assert r == s[i..i + |r|];
    assert s[i + |r|..] == t[|r|..];
    forall c | c in r ensures c in s {
      var j :| 0 <= j < |r| && r[j] == c;
      assert s[i + j] == c;
    }
  }

  /** Segments keep the left-to-right order of the text: `a,b` gives the segments of `a`, then those of `b`. */
  lemma SegmentsAppend(a: string, b: string)
    ensures Segments(a + "," + b) == Segments(a) + Segments(b)
  {
    SplitAppend(a, ',', b);
    TrimAllAppend(Split(a, ','), Split(b, ','));
    DropEmptyAppend(TrimAll(Split(a, ',')), TrimAll(Split(b, ',')));
  }

  /** Trimming each piece leaves an empty string exactly where the piece was blank. */
  lemma TrimAllBlankIff(pieces: seq<string>)
    ensures forall i :: 0 <= i < |pieces| ==> (TrimAll(pieces)[i] == [] <==> AllWhitespace(pieces[i]))
  {
    forall i | 0 <= i < |pieces| ensures TrimAll(pieces)[i] == [] <==> AllWhitespace(pieces[i]) {
      TrimEmptyIffBlank(pieces[i]);
    }
  }

  predicate AllBlank(pieces: seq<string>) {
    forall i :: 0 <= i < |pieces| ==> AllWhitespace(pieces[i])
  }

  /** There are no segments exactly when every comma-separated piece is blank. */
  lemma SegmentsEmptyIffBlank(s: string)
    ensures Segments(s) == [] <==> AllBlank(Split(s, ','))
  {
    var pieces := Split(s, ',');
    var trimmed := TrimAll(pieces);
    TrimAllBlankIff(pieces);
    DropEmptyNoneIff(trimmed);
    if Segments(s) == [] {
      forall i | 0 <= i < |pieces| ensures AllWhitespace(pieces[i]) {
        assert trimmed[i] == [];
      }
    } else {
      var i :| 0 <= i < |trimmed| && trimmed[i] != [];
      assert !AllWhitespace(pieces[i]);
    }
  }

  /** A text without a comma has at most one segment: its own trim, if not blank. */
  lemma SegmentsOfOnePiece(s: string)
    requires ',' !in s
    ensures Segments(s) == if Trim(s) == [] then [] else [Trim(s)]
  {
    SplitNoSeparator(s, ',');
  }

  /** A non-empty piece without commas and without whitespace at either end. */
  predicate CleanPiece(p: string) {
    p != [] && ',' !in p && !IsWhitespace(p[0]) && !IsWhitespace(p[|p| - 1])
  }

  /** A clean piece is its own single segment. */
  lemma SegmentsOfCleanPiece(p: string)
    requires CleanPiece(p)
    ensures Segments(p) == [p]
  {
    assert ',' !in p;
    SegmentsOfOnePiece(p);
    TrimClean(p);
  }

  /** Filtering a list without empty strings changes nothing. */
  lemma {:induction false} DropEmptyNoEmpty(parts: seq<string>)
    requires forall i :: 0 <= i < |parts| ==> parts[i] != []
    ensures DropEmpty(parts) == parts
    decreases |parts|
  {
    if parts != [] {
      DropEmptyNoEmpty(parts[1..]);
      assert parts == [parts[0]] + parts[1..];
    }
  }

  /**
   Joining comma-free pieces that are not blank with commas and taking the
   segments gives back each piece, trimmed, in the same order.
   */
  lemma SegmentsOfJoin(parts: seq<string>)
    requires |parts| >= 1
    requires forall i :: 0 <= i < |parts| ==> ',' !in parts[i] && Trim(parts[i]) != []
    ensures Segments(Join(parts, ',')) == TrimAll(parts)
  {
    SplitJoin(parts, ',');
    var trimmed := TrimAll(parts);
    assert forall i :: 0 <= i < |trimmed| ==> trimmed[i] != [];
    DropEmptyNoEmpty(trimmed);
    assert Segments(Join(parts, ',')) == DropEmpty(trimmed);
  }

  /** Joining clean pieces with commas and taking the segments gives the pieces back. */
  lemma SegmentsOfCleanJoin(parts: seq<string>)
    requires |parts| >= 1
    requires forall i :: 0 <= i < |parts| ==> CleanPiece(parts[i])
    ensures Segments(Join(parts, ',')) == parts
  {
    forall i | 0 <= i < |parts| ensures ',' !in parts[i] && Trim(parts[i]) == parts[i] != [] {
      var p := parts[i];
      assert CleanPiece(p);
      TrimClean(p);
    }
    SegmentsOfJoin(parts);
    var trimmed := TrimAll(parts);
    assert |trimmed| == |parts|;
    assert forall i :: 0 <= i < |parts| ==> trimmed[i] == parts[i];
    assert trimmed == parts;
  }
}
