/** The JavaScript string operations the program uses: `trim`, `split` on a separator
    character class, `join`, `includes`, ASCII `toLowerCase`, `replace` of a character class,
    and the leftmost-occurrence search a regular expression match starts from. */
module Text {
  import opened Common

  /** ECMAScript WhiteSpace and LineTerminator code points: what `String.prototype.trim` removes. */
  predicate IsSpace(c: char) {
    c == '\t' || c == '\n' || c == '\U{000B}' || c == '\U{000C}' || c == '\r' || c == ' '
    || c == '\U{00A0}' || c == '\U{1680}' || ('\U{2000}' <= c <= '\U{200A}')
    || c == '\U{2028}' || c == '\U{2029}' || c == '\U{202F}' || c == '\U{205F}'
    || c == '\U{3000}' || c == '\U{FEFF}'
  }

  predicate AllSpace(s: string) {
    forall i :: 0 <= i < |s| ==> IsSpace(s[i])
  }

  /** Neither begins nor ends with white space. */
  predicate NoEdgeSpace(s: string) {
    s == "" || (!IsSpace(s[0]) && !IsSpace(s[|s| - 1]))
  }

  function TrimStart(s: string): (r: string)
    ensures |r| <= |s| && r == s[|s| - |r|..]
    ensures forall i :: 0 <= i < |s| - |r| ==> IsSpace(s[i])
    ensures r == "" || !IsSpace(r[0])
  {
    if |s| > 0 && IsSpace(s[0]) then TrimStart(s[1..]) else s
  }

  function TrimEnd(s: string): (r: string)
    ensures |r| <= |s| && r == s[..|r|]
    ensures forall i :: |r| <= i < |s| ==> IsSpace(s[i])
    ensures r == "" || !IsSpace(r[|r| - 1])
  {
    if |s| > 0 && IsSpace(s[|s| - 1]) then TrimEnd(s[..|s| - 1]) else s
  }

  /** `s.trim()`: the part of s between its leading and trailing white space. */
  function Trim(s: string): (r: string)
    ensures NoEdgeSpace(r)
  {
    TrimEnd(TrimStart(s))
  }

  /** What trim keeps is a slice of the input with only white space around it. */
  lemma TrimSlice(s: string) returns (i: nat)
    ensures i + |Trim(s)| <= |s| && Trim(s) == s[i..i + |Trim(s)|]
    ensures AllSpace(s[..i]) && AllSpace(s[i + |Trim(s)|..])
  {
    var t := TrimStart(s);
    var r := TrimEnd(t);
    i := |s| - |t|;
    assert t == s[i..];
    assert AllSpace(s[..i]) by {
      TrimStartSpace(s);
    }
    assert AllSpace(s[i + |r|..]) by {
      TrimEndSpace(t);
      assert s[i + |r|..] == t[|r|..];
    }
    assert r == s[i..i + |r|] by {
      assert t[..|r|] == s[i..i + |r|];
    }
  }

  lemma TrimStartSpace(s: string)
    ensures AllSpace(s[..|s| - |TrimStart(s)|])
  {
    var p := s[..|s| - |TrimStart(s)|];
    forall h | 0 <= h < |p| ensures IsSpace(p[h]) {
      assert p[h] == s[h];
    }
  }

  lemma TrimEndSpace(t: string)
    ensures AllSpace(t[|TrimEnd(t)|..])
  {
    var p := t[|TrimEnd(t)|..];
    forall h | 0 <= h < |p| ensures IsSpace(p[h]) {
      assert p[h] == t[|TrimEnd(t)| + h];
    }
  }

  lemma {:induction false} TrimStartPadded(ws: string, t: string)
    requires AllSpace(ws)
    requires t == "" || !IsSpace(t[0])
    ensures TrimStart(ws + t) == t
  {
    if |ws| > 0 {
      assert (ws + t)[1..] == ws[1..] + t;
      TrimStartPadded(ws[1..], t);
    } else {
      assert ws + t == t;
    }
  }

  lemma {:induction false} TrimEndPadded(t: string, ws: string)
    requires AllSpace(ws)
    requires t == "" || !IsSpace(t[|t| - 1])
    ensures TrimEnd(t + ws) == t
    decreases |ws|
  {
    if |ws| > 0 {
      assert (t + ws)[..|t + ws| - 1] == t + ws[..|ws| - 1];
      TrimEndPadded(t, ws[..|ws| - 1]);
    } else {
      assert t + ws == t;
    }
  }

  /** Trimming removes exactly the white space added around a word that has none at its edges. */
  lemma TrimPadded(ws1: string, w: string, ws2: string)
    requires AllSpace(ws1) && AllSpace(ws2) && NoEdgeSpace(w)
    ensures Trim(ws1 + w + ws2) == w
  {
    if w == "" {
      assert ws1 + w + ws2 == ws1 + ws2;
      assert AllSpace(ws1 + ws2);
      TrimStartPadded(ws1 + ws2, "");
      assert ws1 + ws2 + "" == ws1 + ws2;
    } else {
      assert ws1 + w + ws2 == ws1 + (w + ws2);
      TrimStartPadded(ws1, w + ws2);
      TrimEndPadded(w, ws2);
    }
  }

  /** A string without white space at its ends trims to itself. */
  lemma TrimUnpadded(w: string)
    requires NoEdgeSpace(w)
    ensures Trim(w) == w
  {
    TrimPadded("", w, "");
    assert "" + w + "" == w;
  }

  /** A string that starts with a non-space character does not trim to nothing. */
  lemma TrimNotBlank(s: string)
    requires |s| > 0 && !IsSpace(s[0])
    ensures Trim(s) != ""
  {
    assert TrimStart(s) == s;
  }

  /** A join starts with the first piece. */
  lemma JoinHead(xs: seq<string>, sep: string)
    requires |xs| > 0 && xs[0] != ""
    ensures |Join(xs, sep)| > 0 && Join(xs, sep)[0] == xs[0][0]
  {
    if |xs| > 1 {
      assert Join(xs, sep) == xs[0] + (sep + Join(xs[1..], sep));
    }
  }

  /** A string trims to nothing exactly when it is all white space. */
  lemma TrimEmptyIffAllSpace(s: string)
    ensures Trim(s) == "" <==> AllSpace(s)
  {
    if AllSpace(s) {
      TrimStartPadded(s, "");
      assert s + "" == s;
    }
  }

  /** None of the characters of s is in cs. */
  predicate NoneIn(s: string, cs: set<char>) {
    forall i :: 0 <= i < |s| ==> s[i] !in cs
  }

  /** Trimming keeps only characters of the input. */
  lemma TrimInside(s: string, cs: set<char>)
    requires NoneIn(s, cs)
    ensures NoneIn(Trim(s), cs)
  {
    var r := Trim(s);
    var i := TrimSlice(s);
    forall h | 0 <= h < |r| ensures r[h] !in cs {
      assert r[h] == s[i + h];
    }
  }

  lemma NoneInAppend(x: string, y: string, cs: set<char>)
    requires NoneIn(x, cs) && NoneIn(y, cs)
    ensures NoneIn(x + y, cs)
  {
  }

  lemma AppendAssoc(x: string, y: string, z: string)
    ensures (x + y) + z == x + (y + z)
  {
  }

  /** `s.split(sep)` where sep matches exactly one character of `seps`: the pieces between
      separators, empty pieces included, at least one piece. */
  function Split(s: string, seps: set<char>): (r: seq<string>)
    ensures |r| >= 1
  {
    if |s| == 0 then [""]
    else
      var rest := Split(s[1..], seps);
      if s[0] in seps then [""] + rest
      else [[s[0]] + rest[0]] + rest[1..]
  }

  /** No piece holds a separator. */
  lemma {:induction false} SplitPieces(s: string, seps: set<char>)
    ensures forall i :: 0 <= i < |Split(s, seps)| ==> NoneIn(Split(s, seps)[i], seps)
  {
    if |s| > 0 {
      SplitPieces(s[1..], seps);
    }
  }

  /** `xs.join(sep)`. */
  function Join(xs: seq<string>, sep: string): string
  {
    if |xs| == 0 then "" else if |xs| == 1 then xs[0] else xs[0] + sep + Join(xs[1..], sep)
  }

  lemma {:induction false} SplitPrefix(p: string, s: string, seps: set<char>)
    requires NoneIn(p, seps)
    ensures Split(p + s, seps) == [p + Split(s, seps)[0]] + Split(s, seps)[1..]
  {
    if |p| > 0 {
      assert (p + s)[1..] == p[1..] + s;
      assert (p + s)[0] == p[0];
      SplitPrefix(p[1..], s, seps);
      assert p == [p[0]] + p[1..];
      assert [p[0]] + (p[1..] + Split(s, seps)[0]) == p + Split(s, seps)[0];
    } else {
      assert p + s == s;
      assert p + Split(s, seps)[0] == Split(s, seps)[0];
      assert Split(s, seps) == [Split(s, seps)[0]] + Split(s, seps)[1..];
    }
  }

  /** Splitting undoes joining with one separator character that no piece contains. */
  lemma {:induction false} SplitJoin(xs: seq<string>, c: char, seps: set<char>)
    requires |xs| >= 1 && c in seps
    requires forall i :: 0 <= i < |xs| ==> NoneIn(xs[i], seps)
    ensures Split(Join(xs, [c]), seps) == xs
  {
    if |xs| == 1 {
      SplitPrefix(xs[0], "", seps);
      assert xs[0] + "" == xs[0];
    } else {
      var rest := Join(xs[1..], [c]);
      SplitJoin(xs[1..], c, seps);
      assert Join(xs, [c]) == xs[0] + ([c] + rest);
      SplitPrefix(xs[0], [c] + rest, seps);
      assert ([c] + rest)[1..] == rest;
      assert ([c] + rest)[0] == c;
      assert Split([c] + rest, seps) == [""] + Split(rest, seps);
      assert xs[0] + "" == xs[0];
      assert xs == [xs[0]] + xs[1..];
    }
  }
  /** Joining with a separator cannot tell a last element that holds the separator from two
      elements. */
  lemma {:induction false} JoinSplitLast(xs: seq<string>, u: string, c: char, v: string)
    ensures Join(xs + [u + [c] + v], [c]) == Join(xs + [u, v], [c])
  {
    if |xs| > 0 {
      JoinSplitLast(xs[1..], u, c, v);
      assert (xs + [u + [c] + v])[1..] == xs[1..] + [u + [c] + v];
      assert (xs + [u, v])[1..] == xs[1..] + [u, v];
    } else {
      assert [u, v][1..] == [v];
    }
  }


  /** s with every character of cs deleted (`s.replace(/[...]/g, '')`). */
  function RemoveChars(s: string, cs: set<char>): (r: string)
    ensures |r| <= |s|
  {
    if |s| == 0 then ""
    else (if s[0] in cs then "" else [s[0]]) + RemoveChars(s[1..], cs)
  }

  /** Removing characters a string does not hold leaves it as it is. */
  lemma {:induction false} RemoveCharsNone(s: string, cs: set<char>)
    requires NoneIn(s, cs)
    ensures RemoveChars(s, cs) == s
  {
    if |s| > 0 {
      RemoveCharsNone(s[1..], cs);
      assert s == [s[0]] + s[1..];
    }
  }

  predicate OccursAt(s: string, pat: string, k: nat) {
    k + |pat| <= |s| && s[k..k + |pat|] == pat
  }

  /** The first position at or after `from` where `pat` occurs in s. */
  function IndexOf(s: string, pat: string, from: nat): (r: Option<nat>)
    ensures r.Some? ==> from <= r.value && OccursAt(s, pat, r.value)
    ensures r.Some? ==> forall k :: from <= k < r.value ==> !OccursAt(s, pat, k)
    ensures r.None? ==> forall k :: from <= k ==> !OccursAt(s, pat, k)
    decreases |s| - from
  {
    if from + |pat| > |s| then None
    else if s[from..from + |pat|] == pat then Some(from)
    else IndexOf(s, pat, from + 1)
  }

  /** A first occurrence is what IndexOf finds. */
  lemma IndexOfFirst(s: string, pat: string, from: nat, k: nat)
    requires from <= k && OccursAt(s, pat, k)
    requires forall h :: from <= h < k ==> !OccursAt(s, pat, h)
    ensures IndexOf(s, pat, from) == Some(k)
  {
  }

  /** `s.includes(q)`. */
  function Includes(s: string, q: string): (b: bool)
    ensures b <==> exists k :: 0 <= k && OccursAt(s, q, k)
  {
    IndexOf(s, q, 0).Some?
  }

  function LowerChar(c: char): char {
    if 'A' <= c <= 'Z' then (c as int + 32) as char else c
  }

  /** `s.toLowerCase()` on ASCII letters. */
  function ToLower(s: string): string {
    seq(|s|, i requires 0 <= i < |s| => LowerChar(s[i]))
  }

  /** The strings of xs that are not empty, in order. */
  function DropEmpty(xs: seq<string>): (r: seq<string>)
    ensures |r| <= |xs|
  {
    if |xs| == 0 then [] else (if xs[0] == "" then [] else [xs[0]]) + DropEmpty(xs[1..])
  }

  /** What is kept is non-empty and, like every input, free of the characters cs. */
  lemma {:induction false} DropEmptyKeeps(xs: seq<string>, cs: set<char>)
    requires forall i :: 0 <= i < |xs| ==> NoneIn(xs[i], cs)
    ensures forall i :: 0 <= i < |DropEmpty(xs)| ==> DropEmpty(xs)[i] != "" && NoneIn(DropEmpty(xs)[i], cs)
  {
    if |xs| > 0 {
      DropEmptyKeeps(xs[1..], cs);
    }
  }

  lemma {:induction false} DropEmptyNone(xs: seq<string>)
    requires forall i :: 0 <= i < |xs| ==> xs[i] != ""
    ensures DropEmpty(xs) == xs
  {
    if |xs| > 0 {
      DropEmptyNone(xs[1..]);
    }
  }

}
