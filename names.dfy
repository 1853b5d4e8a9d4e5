/**
 * Name normalisation of the importer: `re.sub('\s+', ' ', name)`.
 * Every maximal run of whitespace becomes one space; nothing is trimmed.
 */
module NameNormalization {

  /** The characters `\s` matches in a pattern compiled without the UNICODE flag. */
  predicate IsSpace(c: char) {
    c == ' ' || c == '\t' || c == '\n' || c == '\r' || c == '\U{000B}' || c == '\U{000C}'
  }

  /** No two neighbouring characters are both whitespace. */
  predicate NoAdjacentSpace(s: seq<char>) {
    forall i :: 0 <= i < |s| - 1 ==> !(IsSpace(s[i]) && IsSpace(s[i + 1]))
  }

  /** The only whitespace character that occurs is the plain space. */
  predicate OnlyPlainSpace(s: seq<char>) {
    forall i :: 0 <= i < |s| && IsSpace(s[i]) ==> s[i] == ' '
  }

  /** Drops the whitespace run at the front of `s`. */
  function SkipSpace(s: seq<char>): (r: seq<char>)
    ensures |r| <= |s| && r == s[|s| - |r|..]
    ensures r == [] || !IsSpace(r[0])
    ensures forall i :: 0 <= i < |s| - |r| ==> IsSpace(s[i])
  {
    if s != [] && IsSpace(s[0]) then SkipSpace(s[1..]) else s
  }

  /**
   * Scans left to right; a whitespace character starts a maximal run,
   * which is replaced by a single space, as the regular-expression
   * substitution does.
   */
  function Collapse(s: seq<char>): (r: seq<char>)
    ensures |r| <= |s|
    ensures r == [] <==> s == []
    ensures r != [] ==> (IsSpace(r[0]) <==> IsSpace(s[0]))
    ensures NoAdjacentSpace(r) && OnlyPlainSpace(r)
    decreases |s|
  {
    if s == [] then []
    else if IsSpace(s[0]) then [' '] + Collapse(SkipSpace(s[1..]))
    else [s[0]] + Collapse(s[1..])
  }

  /**
   * Reference definition, one character at a time: a whitespace character
   * that follows a whitespace character is dropped, any other whitespace
   * character becomes a space, and every other character is kept.
   */
  function Squeeze(afterSpace: bool, s: seq<char>): seq<char>
    decreases |s|
  {
    if s == [] then []
    else if IsSpace(s[0]) then (if afterSpace then [] else [' ']) + Squeeze(true, s[1..])
    else [s[0]] + Squeeze(false, s[1..])
  }

  /** The characters of `s` that are not whitespace, in order. */
  function NonSpace(s: seq<char>): seq<char>
  {
    if s == [] then []
    else if IsSpace(s[0]) then NonSpace(s[1..])
    else [s[0]] + NonSpace(s[1..])
  }

  lemma {:induction false} SqueezeAfterSpace(s: seq<char>)
    ensures Squeeze(true, s) == Squeeze(false, SkipSpace(s))
    decreases |s|
  {
    if s != [] {
      if IsSpace(s[0]) {
        SqueezeAfterSpace(s[1..]);
      }
    }
  }

  /** The run-by-run substitution agrees with the character-by-character reference. */
  lemma {:induction false} CollapseIsSqueeze(s: seq<char>)
    ensures Collapse(s) == Squeeze(false, s)
    decreases |s|
  {
    if s != [] {
      if IsSpace(s[0]) {
        CollapseIsSqueeze(SkipSpace(s[1..]));
        SqueezeAfterSpace(s[1..]);
      } else {
        CollapseIsSqueeze(s[1..]);
      }
    }
  }

  lemma {:induction false} NonSpaceSkip(s: seq<char>)
    ensures NonSpace(SkipSpace(s)) == NonSpace(s)
    decreases |s|
  {
    if s != [] && IsSpace(s[0]) {
      NonSpaceSkip(s[1..]);
    }
  }

  /** Collapsing keeps every non-whitespace character, in order, and adds none. */
  lemma {:induction false} CollapseKeepsNonSpace(s: seq<char>)
    ensures NonSpace(Collapse(s)) == NonSpace(s)
    decreases |s|
  {
    if s != [] {
      var r := Collapse(s);
      if IsSpace(s[0]) {
        CollapseKeepsNonSpace(SkipSpace(s[1..]));
        NonSpaceSkip(s[1..]);
        assert r[1..] == Collapse(SkipSpace(s[1..]));
      } else {
        CollapseKeepsNonSpace(s[1..]);
        assert r[1..] == Collapse(s[1..]);
      }
    }
  }

  /** A string without whitespace runs and without tabs or newlines is left as it is. */
  lemma {:induction false} CollapseFixesNormalForm(s: seq<char>)
    requires NoAdjacentSpace(s) && OnlyPlainSpace(s)
    ensures Collapse(s) == s
    decreases |s|
  {
    if s != [] {
      if IsSpace(s[0]) {
        assert |s| == 1 || !IsSpace(s[1]);
        assert SkipSpace(s[1..]) == s[1..];
      }
      CollapseFixesNormalForm(s[1..]);
    }
  }

  /** Normalising twice is the same as normalising once. */
  lemma CollapseIdempotent(s: seq<char>)
    ensures Collapse(Collapse(s)) == Collapse(s)
  {
    CollapseFixesNormalForm(Collapse(s));
  }

  /** A non-empty name made only of whitespace becomes a single space, not the empty string. */
  lemma {:induction false} CollapseAllSpace(s: seq<char>)
    requires s != [] && forall i :: 0 <= i < |s| ==> IsSpace(s[i])
    ensures Collapse(s) == " "
  {
    assert SkipSpace(s[1..]) == [];
  }

  /** A word without whitespace passes through unchanged. */
  lemma {:induction false} CollapseWord(w: seq<char>, rest: seq<char>)
    requires forall i :: 0 <= i < |w| ==> !IsSpace(w[i])
    ensures Collapse(w + rest) == w + Collapse(rest)
    decreases |w|
  {
    if w != [] {
      var t := w + rest;
      assert t[0] == w[0] && !IsSpace(t[0]) && t[1..] == w[1..] + rest;
      assert Collapse(t) == [w[0]] + Collapse(w[1..] + rest);
      CollapseWord(w[1..], rest);
      calc {
        Collapse(t);
        [w[0]] + (w[1..] + Collapse(rest));
        ([w[0]] + w[1..]) + Collapse(rest);
        { assert [w[0]] + w[1..] == w; }
        w + Collapse(rest);
      }
    } else {
      assert w + rest == rest;
    }
  }

  /** A maximal whitespace run becomes exactly one space. */
  lemma {:induction false} CollapseRun(run: seq<char>, rest: seq<char>)
    requires run != [] && forall i :: 0 <= i < |run| ==> IsSpace(run[i])
    requires rest == [] || !IsSpace(rest[0])
    ensures Collapse(run + rest) == [' '] + Collapse(rest)
    decreases |run|
  {
    SkipAll(run[1..], rest);
    assert (run + rest)[1..] == run[1..] + rest;
  }

  lemma {:induction false} SkipAll(run: seq<char>, rest: seq<char>)
    requires forall i :: 0 <= i < |run| ==> IsSpace(run[i])
    requires rest == [] || !IsSpace(rest[0])
    ensures SkipSpace(run + rest) == rest
    decreases |run|
  {
    if run != [] {
      assert (run + rest)[1..] == run[1..] + rest;
      SkipAll(run[1..], rest);
    } else {
      assert run + rest == rest;
    }
  }

  /** Concatenation of five pieces, regrouped to the right. */
  lemma Regroup<T>(a: seq<T>, b: seq<T>, c: seq<T>, d: seq<T>, e: seq<T>)
    ensures a + b + c + d + e == a + (b + (c + (d + e)))
  {
  }

  predicate IsWord(w: seq<char>) {
    w != [] && forall i :: 0 <= i < |w| ==> !IsSpace(w[i])
  }

  predicate IsRun(r: seq<char>) {
    r != [] && forall i :: 0 <= i < |r| ==> IsSpace(r[i])
  }

  /**
   * Runs around and between two words each become one space; in particular
   * "  North   Ward " becomes " North Ward ", leading and trailing space kept.
   */
  lemma CollapseAroundWords(lead: seq<char>, w1: seq<char>, gap: seq<char>, w2: seq<char>, tail: seq<char>)
    requires IsRun(lead) && IsWord(w1) && IsRun(gap) && IsWord(w2) && IsRun(tail)
    ensures Collapse(lead + w1 + gap + w2 + tail) == [' '] + w1 + [' '] + w2 + [' ']
  {
    var t := w2 + tail;
    var g := gap + t;
    var u := w1 + g;
    assert Collapse(tail) == [' '] by {
      CollapseRun(tail, []);
      assert tail + [] == tail;
    }
    assert Collapse(t) == w2 + [' '] by {
      CollapseWord(w2, tail);
    }
    assert Collapse(g) == [' '] + (w2 + [' ']) by {
      assert t[0] == w2[0];
      CollapseRun(gap, t);
    }
    assert Collapse(u) == w1 + ([' '] + (w2 + [' '])) by {
      CollapseWord(w1, g);
    }
    assert Collapse(lead + u) == [' '] + (w1 + ([' '] + (w2 + [' ']))) by {
      assert u[0] == w1[0];
      CollapseRun(lead, u);
    }
    Regroup(lead, w1, gap, w2, tail);
    Regroup([' '], w1, [' '], w2, [' ']);
  }
}
