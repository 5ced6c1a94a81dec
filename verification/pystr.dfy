/** The handful of Python string and path builtins the modelled code leans on,
    written out with their CPython semantics: `str.replace`, `str.split('.')[-1]`,
    `' '.join`, `list(s)` and two-argument `os.path.join` (posixpath). */
module PyStr {

  /** `s` ends with `t`. */
  predicate EndsWith(s: string, t: string) {
    |t| <= |s| && s[|s| - |t|..] == t
  }

  /** `pat` occurs in `s` starting at index `i`. */
  predicate OccursAt(s: string, pat: string, i: int) {
    0 <= i && i + |pat| <= |s| && s[i..i + |pat|] == pat
  }

  ghost predicate Occurs(s: string, pat: string) {
    exists i :: OccursAt(s, pat, i)
  }

  /** CPython's `s.replace(pat, rep)` with an empty pattern: `rep` goes before
      every character and once more at the end (`"ab".replace("", "-") == "-a-b-"`). */
  function InsertEverywhere(s: string, rep: string): (r: string)
    ensures |r| == |s| + (|s| + 1) * |rep|
  {
    if |s| == 0 then rep else rep + [s[0]] + InsertEverywhere(s[1..], rep)
  }

  /** CPython's `s.replace(pat, rep)`: every occurrence of `pat`, scanned left to
      right without overlap, is replaced by `rep`. */
  function Replace(s: string, pat: string, rep: string): (r: string)
    ensures |pat| > 0 && |rep| == |pat| ==> |r| == |s|
    decreases |s|
  {
    if |pat| == 0 then InsertEverywhere(s, rep)
    else if |s| < |pat| then s
    else if s[..|pat|] == pat then rep + Replace(s[|pat|..], pat, rep)
    else [s[0]] + Replace(s[1..], pat, rep)
  }

  lemma {:induction false} InsertNothing(s: string)
    ensures InsertEverywhere(s, "") == s
  {
    if |s| > 0 {
      InsertNothing(s[1..]);
      assert [s[0]] + s[1..] == s;
    }
  }

  /** Replacing a pattern by itself changes nothing, the empty pattern included. */
  lemma {:induction false} ReplaceBySelf(s: string, pat: string)
    ensures Replace(s, pat, pat) == s
    decreases |s|
  {
    if |pat| == 0 {
      InsertNothing(s);
    } else if |s| < |pat| {
    } else if s[..|pat|] == pat {
      ReplaceBySelf(s[|pat|..], pat);
      assert s[..|pat|] + s[|pat|..] == s;
    } else {
      ReplaceBySelf(s[1..], pat);
      assert [s[0]] + s[1..] == s;
    }
  }

  /** A match at the front is an occurrence. */
  lemma OccursHead(s: string, pat: string)
    requires |pat| <= |s|
    ensures s[..|pat|] == pat ==> Occurs(s, pat)
  {
    if s[..|pat|] == pat {
      assert OccursAt(s, pat, 0);
    }
  }

  /** An occurrence in the tail is an occurrence one place further on. */
  lemma OccursTail(s: string, pat: string)
    requires |s| > 0
    ensures Occurs(s[1..], pat) ==> Occurs(s, pat)
  {
    if Occurs(s[1..], pat) {
      var i :| OccursAt(s[1..], pat, i);
      assert s[1..][i..i + |pat|] == s[i + 1..i + 1 + |pat|];
      assert OccursAt(s, pat, i + 1);
    }
  }

  /** A non-empty pattern that does not occur leaves the string as it is. */
  lemma {:induction false} ReplaceAbsent(s: string, pat: string, rep: string)
    requires |pat| > 0
    requires !Occurs(s, pat)
    ensures Replace(s, pat, rep) == s
    decreases |s|
  {
    if |s| >= |pat| {
      OccursHead(s, pat);
      OccursTail(s, pat);
      ReplaceAbsent(s[1..], pat, rep);
      assert [s[0]] + s[1..] == s;
    }
  }

  /** Every placeholder of the table is non-empty and as long as its replacement. */
  predicate SameLengthTable(table: seq<(string, string)>) {
    forall i :: 0 <= i < |table| ==> |table[i].0| > 0 && |table[i].1| == |table[i].0|
  }

  /** The user's placeholder table, applied entry by entry in iteration order. */
  function ApplyReplacements(s: string, table: seq<(string, string)>): (r: string)
    ensures SameLengthTable(table) ==> |r| == |s|
    decreases |table|
  {
    if |table| == 0 then s
    else ApplyReplacements(Replace(s, table[0].0, table[0].1), table[1..])
  }

  /** Applying two tables one after the other is applying their concatenation. */
  lemma {:induction false} ApplyReplacementsAppend(s: string, a: seq<(string, string)>, b: seq<(string, string)>)
    ensures ApplyReplacements(s, a + b) == ApplyReplacements(ApplyReplacements(s, a), b)
    decreases |a|
  {
    if |a| > 0 {
      assert (a + b)[0] == a[0] && (a + b)[1..] == a[1..] + b;
      ApplyReplacementsAppend(Replace(s, a[0].0, a[0].1), a[1..], b);
    } else {
      assert a + b == b;
    }
  }

  /** A table whose every entry maps a key to itself is the identity. */
  lemma {:induction false} ApplyIdentityTable(s: string, table: seq<(string, string)>)
    requires forall j :: 0 <= j < |table| ==> table[j].0 == table[j].1
    ensures ApplyReplacements(s, table) == s
    decreases |table|
  {
    if |table| > 0 {
      ReplaceBySelf(s, table[0].0);
      ApplyIdentityTable(s, table[1..]);
    }
  }

  /** `p.split(".")[-1]`: the text after the last dot, or all of `p` when it has none. */
  function LastDotField(p: string): (r: string)
    ensures '.' !in r
    ensures EndsWith(p, r)
    ensures |r| < |p| ==> p[|p| - |r| - 1] == '.'
  {
    if |p| == 0 then ""
    else if p[|p| - 1] == '.' then ""
    else
      var q := p[..|p| - 1];
      var front := LastDotField(q);
      assert q[|q| - |front|..] == p[|p| - 1 - |front|..|p| - 1];
      assert p[|p| - 1 - |front|..] == p[|p| - 1 - |front|..|p| - 1] + [p[|p| - 1]];
      assert |front| < |q| ==> p[|p| - |front| - 2] == q[|q| - |front| - 1];
      front + [p[|p| - 1]]
  }

  /** Two-argument `os.path.join` on POSIX. */
  function Join(a: string, b: string): (r: string)
    ensures EndsWith(r, b)
    ensures |b| > 0 && b[0] == '/' ==> r == b
  {
    if |b| > 0 && b[0] == '/' then b
    else if a == "" || a[|a| - 1] == '/' then a + b
    else a + "/" + b
  }

  /** Distinct relative names give distinct paths under one directory. */
  lemma JoinInjective(a: string, b1: string, b2: string)
    requires |b1| == 0 || b1[0] != '/'
    requires |b2| == 0 || b2[0] != '/'
    requires b1 != b2
    ensures Join(a, b1) != Join(a, b2)
  {
    var sep := if a == "" || a[|a| - 1] == '/' then a else a + "/";
    assert Join(a, b1) == sep + b1 && Join(a, b2) == sep + b2;
    if sep + b1 == sep + b2 {
      assert b1 == (sep + b1)[|sep|..];
    }
  }

  /** A string agrees with each of its suffixes, counting from the end. */
  lemma CharFromEnd(s: string, t: string, j: nat)
    requires EndsWith(s, t) && j < |t|
    ensures j < |s| && s[|s| - 1 - j] == t[|t| - 1 - j]
  {
    assert s[|s| - |t|..][|t| - 1 - j] == s[|s| - 1 - j];
  }

  /** Appending one string to two different strings keeps them different. */
  lemma AppendKeepsApart(a: string, b: string, c: string)
    ensures a != b ==> a + c != b + c
  {
    if a != b && |a| == |b| {
      assert (a + c)[..|a|] == a && (b + c)[..|b|] == b;
    }
  }

  /** `' '.join(ws)`. */
  function SpaceJoin(ws: seq<string>): (r: string)
    ensures |ws| == 1 ==> r == ws[0]
    decreases |ws|
  {
    if |ws| == 0 then ""
    else if |ws| == 1 then ws[0]
    else ws[0] + " " + SpaceJoin(ws[1..])
  }

  /** The joined string holds exactly the characters of the tokens, plus the
      blank once there are two tokens to separate. */
  lemma {:induction false} SpaceJoinMembers(ws: seq<string>, c: char)
    ensures c in SpaceJoin(ws) <==> (c == ' ' && |ws| >= 2) || exists i :: 0 <= i < |ws| && c in ws[i]
    decreases |ws|
  {
    if |ws| >= 2 {
      var rest := ws[1..];
      SpaceJoinMembers(rest, c);
      assert SpaceJoin(ws) == ws[0] + " " + SpaceJoin(rest);
      assert forall i :: 1 <= i < |ws| ==> ws[i] == rest[i - 1];
      if c in SpaceJoin(rest) && c != ' ' {
        var i :| 0 <= i < |rest| && c in rest[i];
        assert c in ws[i + 1];
      }
      if exists i :: 0 <= i < |ws| && c in ws[i] {
        var i :| 0 <= i < |ws| && c in ws[i];
        if i > 0 {
          assert c in rest[i - 1];
        }
      }
    }
  }

  /** `list(s)`: the one-character strings of `s`, in order. */
  function Characters(s: string): (r: seq<string>)
    ensures |r| == |s|
    ensures forall i :: 0 <= i < |s| ==> r[i] == [s[i]]
  {
    seq(|s|, i requires 0 <= i < |s| => [s[i]])
  }
}
