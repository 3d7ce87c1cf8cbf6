/** String operations the TypeScript code relies on: trim, case mapping, prefix and substring tests, and
    String.prototype.split on one character or on runs of whitespace. Strings are sequences of characters;
    case mapping covers the ASCII letters only. */
module Text {

  /** A character that String.prototype.trim and the regular-expression class \s treat as white space
      (the ASCII ones and the no-break space). */
  predicate IsSpace(c: char) {
    c == ' ' || c == '\t' || c == '\n' || c == '\r' || c == '\U{B}' || c == '\U{C}' || c == '\U{A0}'
  }

  function LowerChar(c: char): (r: char)
    ensures 'A' <= c <= 'Z' ==> 'a' <= r <= 'z'
    ensures !('A' <= c <= 'Z') ==> r == c
  {
    if 'A' <= c <= 'Z' then (c as int + 32) as char else c
  }

  function UpperChar(c: char): (r: char)
    ensures 'a' <= c <= 'z' ==> 'A' <= r <= 'Z'
    ensures !('a' <= c <= 'z') ==> r == c
  {
    if 'a' <= c <= 'z' then (c as int - 32) as char else c
  }

  /** String.prototype.toLowerCase. */
  function Lower(s: string): string {
    if s == [] then [] else [LowerChar(s[0])] + Lower(s[1..])
  }

  /** String.prototype.toUpperCase. */
  function Upper(s: string): string {
    if s == [] then [] else [UpperChar(s[0])] + Upper(s[1..])
  }

  /** Lower-casing keeps the length and maps every position on its own. */
  lemma {:induction false} LowerAt(s: string)
    ensures |Lower(s)| == |s|
    ensures forall i :: 0 <= i < |s| ==> Lower(s)[i] == LowerChar(s[i])
  {
    if s != [] {
      LowerAt(s[1..]);
      assert Lower(s) == [LowerChar(s[0])] + Lower(s[1..]);
    }
  }

  lemma {:induction false} UpperAt(s: string)
    ensures |Upper(s)| == |s|
    ensures forall i :: 0 <= i < |s| ==> Upper(s)[i] == UpperChar(s[i])
  {
    if s != [] {
      UpperAt(s[1..]);
      assert Upper(s) == [UpperChar(s[0])] + Upper(s[1..]);
    }
  }

  /** Lower-casing twice is lower-casing once. */
  lemma {:induction false} LowerIdempotent(s: string)
    ensures Lower(Lower(s)) == Lower(s)
  {
    if s != [] {
      LowerIdempotent(s[1..]);
      assert Lower(s) == [LowerChar(s[0])] + Lower(s[1..]);
    }
  }

  lemma {:induction false} LowerAppend(a: string, b: string)
    ensures Lower(a + b) == Lower(a) + Lower(b)
  {
    if a != [] {
      LowerAppend(a[1..], b);
      assert (a + b)[0] == a[0] && (a + b)[1..] == a[1..] + b;
      assert Lower(a + b) == [LowerChar(a[0])] + Lower(a[1..] + b);
      assert Lower(a) == [LowerChar(a[0])] + Lower(a[1..]);
    } else {
      assert a + b == b;
    }
  }

  /** Lower-casing forgets an upper-casing: Lower(Upper(s)) == Lower(s). */
  lemma {:induction false} LowerUpper(s: string)
    ensures Lower(Upper(s)) == Lower(s)
  {
    if s != [] {
      LowerUpper(s[1..]);
      assert Upper(s) == [UpperChar(s[0])] + Upper(s[1..]);
    }
  }

  /** s starts with p (String.prototype.startsWith). */
  predicate StartsWith(s: string, p: string) {
    |p| <= |s| && s[..|p|] == p
  }

  /** s contains sub as a contiguous piece (String.prototype.includes). */
  predicate Contains(s: string, sub: string) {
    StartsWith(s, sub) || (s != [] && Contains(s[1..], sub))
  }

  /** sub occurs in s starting at position i. */
  predicate OccursAt(s: string, sub: string, i: int) {
    0 <= i <= |s| - |sub| && s[i..i + |sub|] == sub
  }

  /** Contains is exactly "sub occurs at some position of s". */
  lemma {:induction false} ContainsAt(s: string, sub: string)
    ensures Contains(s, sub) <==> exists i :: OccursAt(s, sub, i)
  {
    if StartsWith(s, sub) {
      assert OccursAt(s, sub, 0);
    } else if s == [] {
      assert forall i :: !OccursAt(s, sub, i);
    } else {
      ContainsAt(s[1..], sub);
      if Contains(s[1..], sub) {
        var i :| OccursAt(s[1..], sub, i);
        assert s[i + 1..i + 1 + |sub|] == s[1..][i..i + |sub|];
        assert OccursAt(s, sub, i + 1);
      }
      if i :| OccursAt(s, sub, i) {
        assert i != 0;
        assert s[1..][i - 1..i - 1 + |sub|] == s[i..i + |sub|];
        assert OccursAt(s[1..], sub, i - 1);
      }
    }
  }

  /** The empty string occurs in every string. */
  lemma ContainsEmpty(s: string)
    ensures Contains(s, "")
  {
  }

  /** Only the empty string occurs in the empty string. */
  lemma ContainedInEmpty(sub: string)
    ensures Contains("", sub) <==> sub == ""
  {
  }

  /** String.prototype.trimStart. */
  function TrimStart(s: string): (r: string)
    ensures |r| <= |s|
    ensures r == [] || !IsSpace(r[0])
    ensures forall i :: 0 <= i < |s| - |r| ==> IsSpace(s[i])
  {
    if s != [] && IsSpace(s[0]) then TrimStart(s[1..]) else s
  }

  /** String.prototype.trimEnd. */
  function TrimEnd(s: string): (r: string)
    ensures |r| <= |s|
    ensures r == [] || !IsSpace(r[|r| - 1])
    ensures forall i :: |r| <= i < |s| ==> IsSpace(s[i])
  {
    if s != [] && IsSpace(s[|s| - 1]) then TrimEnd(s[..|s| - 1]) else s
  }

  /** What trimStart keeps is a suffix of its input. */
  lemma {:induction false} TrimStartSuffix(s: string)
    ensures TrimStart(s) == s[|s| - |TrimStart(s)|..]
  {
    if s != [] && IsSpace(s[0]) {
      TrimStartSuffix(s[1..]);
    }
  }

  /** What trimEnd keeps is a prefix of its input. */
  lemma {:induction false} TrimEndPrefix(s: string)
    ensures TrimEnd(s) == s[..|TrimEnd(s)|]
  {
    if s != [] && IsSpace(s[|s| - 1]) {
      TrimEndPrefix(s[..|s| - 1]);
    }
  }

  /** String.prototype.trim. */
  function Trim(s: string): string {
    TrimEnd(TrimStart(s))
  }

  /** A string is blank when trimming leaves nothing: exactly when all of it is white space. */
  predicate IsBlank(s: string) {
    Trim(s) == ""
  }

  lemma BlankIffAllSpace(s: string)
    ensures IsBlank(s) <==> forall i :: 0 <= i < |s| ==> IsSpace(s[i])
  {
    var t := TrimStart(s);
    TrimStartSuffix(s);
    assert t != [] ==> t[0] == s[|s| - |t|];
    assert forall i :: |s| - |t| <= i < |s| ==> t[i - (|s| - |t|)] == s[i];
  }

  /** A trimmed string neither starts nor ends with white space. */
  lemma TrimEnds(s: string)
    ensures Trim(s) == [] || (!IsSpace(Trim(s)[0]) && !IsSpace(Trim(s)[|Trim(s)| - 1]))
  {
    var t := TrimStart(s);
    var u := TrimEnd(t);
    if u != [] {
      TrimEndPrefix(t);
      assert u[0] == t[0];
    }
  }

  /** Concatenation of a list of strings (Array.prototype.join("")). */
  function Concat(parts: seq<string>): string {
    if parts == [] then "" else parts[0] + Concat(parts[1..])
  }

  /** Join with a one-character separator (Array.prototype.join(sep)). */
  function JoinWith(parts: seq<string>, sep: char): string
    requires |parts| >= 1
  {
    if |parts| == 1 then parts[0] else parts[0] + [sep] + JoinWith(parts[1..], sep)
  }

  /** s.split(sep) for a one-character separator: the pieces between separators, empty ones included. */
  function SplitChar(s: string, sep: char): (r: seq<string>)
    ensures |r| >= 1
  {
    if s == [] then [""]
    else if s[0] == sep then [""] + SplitChar(s[1..], sep)
    else
      var rest := SplitChar(s[1..], sep);
      [[s[0]] + rest[0]] + rest[1..]
  }

  /** Splitting on a character and joining again with it gives the string back. */
  lemma {:induction false} SplitCharJoin(s: string, sep: char)
    ensures JoinWith(SplitChar(s, sep), sep) == s
  {
    if s != [] {
      SplitCharJoin(s[1..], sep);
      var rest := SplitChar(s[1..], sep);
      if s[0] == sep {
        JoinAfterEmpty(rest, sep);
      } else {
        JoinExtendFirst(s[0], rest, sep);
      }
      assert s == [s[0]] + s[1..];
    }
  }

  /** An empty first piece contributes only the separator. */
  lemma JoinAfterEmpty(parts: seq<string>, sep: char)
    requires |parts| >= 1
    ensures JoinWith([""] + parts, sep) == [sep] + JoinWith(parts, sep)
  {
    assert ([""] + parts)[1..] == parts;
  }

  /** Putting a character in front of the first piece puts it in front of the joined string. */
  lemma JoinExtendFirst(c: char, parts: seq<string>, sep: char)
    requires |parts| >= 1
    ensures JoinWith([[c] + parts[0]] + parts[1..], sep) == [c] + JoinWith(parts, sep)
  {
    var r := [[c] + parts[0]] + parts[1..];
    assert r[1..] == parts[1..];
    if |parts| > 1 {
      assert JoinWith(r, sep) == [c] + parts[0] + [sep] + JoinWith(parts[1..], sep);
    }
  }

  /** No piece of a split holds the separator. */
  lemma {:induction false} SplitCharPieces(s: string, sep: char)
    ensures forall k :: 0 <= k < |SplitChar(s, sep)| ==> sep !in SplitChar(s, sep)[k]
  {
    if s != [] {
      SplitCharPieces(s[1..], sep);
      var rest := SplitChar(s[1..], sep);
      if s[0] == sep {
        assert SplitChar(s, sep)[1..] == rest;
      } else {
        var r := SplitChar(s, sep);
        assert r[1..] == rest[1..];
        assert r[0] == [s[0]] + rest[0];
      }
    }
  }

  /** s.split(/\s+/): the pieces between maximal runs of white space; a leading run gives an empty first
      piece and a trailing run an empty last one. */
  function SplitSpaces(s: string): (r: seq<string>)
    ensures |r| >= 1
    decreases |s|
  {
    if s == [] then [""]
    else if IsSpace(s[0]) then [""] + SplitSpaces(TrimStart(s))
    else
      var rest := SplitSpaces(s[1..]);
      [[s[0]] + rest[0]] + rest[1..]
  }

  /** No piece of a white-space split contains white space. */
  lemma {:induction false} SplitSpacesNoSpace(s: string)
    ensures forall k, i :: 0 <= k < |SplitSpaces(s)| && 0 <= i < |SplitSpaces(s)[k]| ==> !IsSpace(SplitSpaces(s)[k][i])
    decreases |s|
  {
    if s != [] {
      if IsSpace(s[0]) {
        SplitSpacesNoSpace(TrimStart(s));
        assert SplitSpaces(s)[1..] == SplitSpaces(TrimStart(s));
      } else {
        SplitSpacesNoSpace(s[1..]);
        var rest := SplitSpaces(s[1..]);
        var r := SplitSpaces(s);
        assert r[1..] == rest[1..];
        forall k, i | 0 <= k < |r| && 0 <= i < |r[k]| ensures !IsSpace(r[k][i]) {
          if k == 0 {
            if i > 0 {
              assert r[0][i] == rest[0][i - 1];
            }
          } else {
            assert r[k] == rest[k];
          }
        }
      }
    }
  }

  /** A piece without the separator splits into itself. */
  lemma {:induction false} SplitCharNone(w: string, sep: char)
    requires sep !in w
    ensures SplitChar(w, sep) == [w]
  {
    if w != [] {
      SplitCharNone(w[1..], sep);
      assert [w[0]] + w[1..] == w;
    }
  }

  /** Splitting at the first separator: the piece before it comes first, then the pieces of the rest. */
  lemma {:induction false} SplitCharFirst(a: string, sep: char, b: string)
    requires sep !in a
    ensures SplitChar(a + [sep] + b, sep) == [a] + SplitChar(b, sep)
  {
    var s := a + [sep] + b;
    if a == [] {
      assert s[1..] == b;
    } else {
      assert s[1..] == a[1..] + [sep] + b;
      SplitCharFirst(a[1..], sep, b);
      assert [a[0]] + a[1..] == a;
    }
  }

  /** s holds no white space. */
  predicate Word(s: string) {
    s == [] || (!IsSpace(s[0]) && Word(s[1..]))
  }

  lemma {:induction false} WordAt(s: string)
    ensures Word(s) <==> forall i :: 0 <= i < |s| ==> !IsSpace(s[i])
  {
    if s != [] {
      WordAt(s[1..]);
      assert forall i :: 1 <= i < |s| ==> s[1..][i - 1] == s[i];
    }
  }

  /** A word splits on white space into itself. */
  lemma {:induction false} SplitSpacesNone(w: string)
    requires Word(w)
    ensures SplitSpaces(w) == [w]
    decreases |w|
  {
    if w != [] {
      SplitSpacesNone(w[1..]);
      assert [w[0]] + w[1..] == w;
    }
  }

  /** Splitting on white space at a single space before a non-space: the word before it comes first,
      then the pieces of the rest. */
  lemma {:induction false} SplitSpacesFirst(a: string, b: string)
    requires Word(a)
    requires b == [] || !IsSpace(b[0])
    ensures SplitSpaces(a + " " + b) == [a] + SplitSpaces(b)
    decreases |a|
  {
    var s := a + " " + b;
    if a == [] {
      assert s[1..] == b;
      assert TrimStart(s) == TrimStart(b) == b;
    } else {
      assert s[1..] == a[1..] + " " + b;
      SplitSpacesFirst(a[1..], b);
      assert [a[0]] + a[1..] == a;
    }
  }
}
