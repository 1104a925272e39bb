/** The ingredient text the user types: the blank-input guard of the
    order form and the normalization applied before the lookup
    (`input.trim().toLowerCase().replace(/\s+/g, '_')`), over ASCII. */
module Ingredient {

  /** ASCII whitespace as `trim` and `\s` see it: tab, line feed, vertical
      tab, form feed, carriage return and space. */
  predicate IsSpace(c: char)
  {
    c == ' ' || c == '\t' || c == '\n' || c == '\U{0B}' || c == '\U{0C}' || c == '\r'
  }

  predicate IsUpper(c: char) { 'A' <= c <= 'Z' }

  predicate NoSpace(s: string) { forall i :: 0 <= i < |s| ==> !IsSpace(s[i]) }

  predicate AllSpace(s: string) { forall i :: 0 <= i < |s| ==> IsSpace(s[i]) }

  predicate NoUpper(s: string) { forall i :: 0 <= i < |s| ==> !IsUpper(s[i]) }

  /** Lowercases one ASCII letter: the result is never a capital, and
      anything that is not a capital is kept. */
  function ToLower(c: char): (r: char)
    ensures !IsUpper(r)
    ensures !IsUpper(c) ==> r == c
    ensures IsUpper(c) ==> 'a' <= r <= 'z'
  {
    if IsUpper(c) then (c as int + 32) as char else c
  }

  /** `toLowerCase` restricted to ASCII letters: same length, no capital
      left, and every character that is not a capital is kept. */
  function Lower(s: string): (r: string)
    ensures |r| == |s|
    ensures NoUpper(r)
    ensures forall i :: 0 <= i < |s| && !IsUpper(s[i]) ==> r[i] == s[i]
  {
    seq(|s|, i requires 0 <= i < |s| => ToLower(s[i]))
  }

  /** Drops the leading whitespace: the result is the longest suffix of `s`
      that does not start with whitespace, and everything before it is
      whitespace. */
  function TrimStart(s: string): (r: string)
    ensures |r| <= |s| && r == s[|s| - |r|..]
    ensures forall i :: 0 <= i < |s| - |r| ==> IsSpace(s[i])
    ensures r != [] ==> !IsSpace(r[0])
  {
    if s != [] && IsSpace(s[0]) then TrimStart(s[1..]) else s
  }

  /** Drops the trailing whitespace: the result is the longest prefix of `s`
      that does not end with whitespace, and everything after it is
      whitespace. */
  function TrimEnd(s: string): (r: string)
    ensures |r| <= |s| && r == s[..|r|]
    ensures forall i :: |r| <= i < |s| ==> IsSpace(s[i])
    ensures r != [] ==> !IsSpace(r[|r| - 1])
  {
    if s != [] && IsSpace(s[|s| - 1]) then TrimEnd(s[..|s| - 1]) else s
  }

  /** `String.prototype.trim`: no whitespace at either end, and nothing is
      left exactly when the input was whitespace only. */
  function Trim(s: string): (r: string)
    ensures r == [] || (!IsSpace(r[0]) && !IsSpace(r[|r| - 1]))
    ensures r == [] <==> AllSpace(s)
  {
    var t := TrimStart(s);
    var r := TrimEnd(t);
    r
  }

  /** `replace(/\s+/g, '_')`: each maximal run of whitespace becomes one
      underscore. Scanning left to right, a whitespace character followed by
      more whitespace is dropped and the one that ends the run is replaced. */
  function CollapseRuns(s: string): (r: string)
    ensures NoSpace(r)
    ensures r == [] <==> s == []
    ensures NoUpper(s) ==> NoUpper(r)
  {
    if s == [] then []
    else if !IsSpace(s[0]) then [s[0]] + CollapseRuns(s[1..])
    else if |s| > 1 && IsSpace(s[1]) then CollapseRuns(s[1..])
    else ['_'] + CollapseRuns(s[1..])
  }

  /** normalizeIngredient: trim, lowercase, then one `_` per internal run of
      whitespace. The result holds no whitespace at all (so none at either
      end) and no upper-case letter, and it is empty exactly when the input
      is blank. */
  function Normalize(s: string): (r: string)
    ensures NoSpace(r)
    ensures NoUpper(r)
    ensures r == [] <==> AllSpace(s)
  {
    CollapseRuns(Lower(Trim(s)))
  }

  /** The guard `!raw.trim()` of the order form: it holds exactly for
      whitespace-only input. */
  predicate IsBlank(raw: string)
    ensures IsBlank(raw) <==> AllSpace(raw)
  {
    Trim(raw) == []
  }

  // ---------------------------------------------------------------------
  // Blank input

  /** The guard rejects exactly the whitespace-only inputs, which are
      exactly those that normalize to the empty token. */
  lemma BlankIffWhitespace(raw: string)
    ensures IsBlank(raw) <==> AllSpace(raw)
    ensures IsBlank(raw) <==> Normalize(raw) == []
  {
  }

  // ---------------------------------------------------------------------
  // Idempotence

  lemma {:induction false} CollapseRunsNoSpace(s: string)
    requires NoSpace(s)
    ensures CollapseRuns(s) == s
  {
    if s != [] {
      CollapseRunsNoSpace(s[1..]);
    }
  }

  /** A string without whitespace or capitals normalizes to itself. */
  lemma NormalizeFixedPoint(s: string)
    requires NoSpace(s) && NoUpper(s)
    ensures Normalize(s) == s
  {
    assert TrimStart(s) == s;
    assert TrimEnd(s) == s;
    assert Lower(s) == s;
    CollapseRunsNoSpace(s);
  }

  /** Normalizing twice gives the same token as normalizing once. */
  lemma NormalizeIdempotent(s: string)
    ensures Normalize(Normalize(s)) == Normalize(s)
  {
    NormalizeFixedPoint(Normalize(s));
  }

  // ---------------------------------------------------------------------
  // Normalization in terms of words

  /** words[0] + seps[0] + words[1] + ... + words[n-1]. */
  function Interleave(words: seq<string>, seps: seq<string>): string
    requires |words| == |seps| + 1
  {
    if |words| == 1 then words[0] else words[0] + (seps[0] + Interleave(words[1..], seps[1..]))
  }

  /** The words joined by underscores. */
  function Join(words: seq<string>): string
  {
    if words == [] then [] else if |words| == 1 then words[0] else words[0] + ("_" + Join(words[1..]))
  }

  function LowerAll(words: seq<string>): seq<string>
  {
    seq(|words|, i requires 0 <= i < |words| => Lower(words[i]))
  }

  /** `lead + Interleave(words, seps) + trail` is a string split at its
      maximal whitespace runs: non-empty words without whitespace, non-empty
      whitespace separators, and whitespace (possibly none) at either end. */
  predicate IsLayout(lead: string, words: seq<string>, seps: seq<string>, trail: string)
  {
    && AllSpace(lead) && AllSpace(trail)
    && |words| == |seps| + 1
    && (forall i :: 0 <= i < |words| ==> words[i] != [] && NoSpace(words[i]))
    && (forall i :: 0 <= i < |seps| ==> seps[i] != [] && AllSpace(seps[i]))
  }

  lemma {:induction false} TrimStartPastSpaces(g: string, x: string)
    requires AllSpace(g) && (x == [] || !IsSpace(x[0]))
    ensures TrimStart(g + x) == x
  {
    if g != [] {
      assert (g + x)[1..] == g[1..] + x;
      TrimStartPastSpaces(g[1..], x);
    } else {
      assert g + x == x;
    }
  }

  lemma {:induction false} TrimEndPastSpaces(x: string, g: string)
    requires AllSpace(g) && (x == [] || !IsSpace(x[|x| - 1]))
    ensures TrimEnd(x + g) == x
  {
    if g != [] {
      assert (x + g)[..|x + g| - 1] == x + g[..|g| - 1];
      TrimEndPastSpaces(x, g[..|g| - 1]);
    } else {
      assert x + g == x;
    }
  }

  /** A non-whitespace character passes through unchanged. */
  lemma CollapseRunsCons(c: char, v: string)
    requires !IsSpace(c)
    ensures CollapseRuns([c] + v) == [c] + CollapseRuns(v)
  {
    assert ([c] + v)[0] == c;
    assert ([c] + v)[1..] == v;
  }

  lemma {:induction false} CollapseRunsWordPrefix(w: string, v: string)
    requires NoSpace(w)
    ensures CollapseRuns(w + v) == w + CollapseRuns(v)
  {
    if w == [] {
      assert w + v == v;
    } else {
      var c, t, r := w[0], w[1..], CollapseRuns(v);
      assert CollapseRuns(t + v) == t + r by {
        CollapseRunsWordPrefix(t, v);
      }
      assert CollapseRuns([c] + (t + v)) == [c] + (t + r) by {
        CollapseRunsCons(c, t + v);
      }
      assert w + v == [c] + (t + v);
      assert [c] + (t + r) == w + r;
    }
  }

  lemma LowerAppend(a: string, b: string)
    ensures Lower(a + b) == Lower(a) + Lower(b)
  {
  }

  lemma LowerKeepsSpaces(s: string)
    ensures AllSpace(s) ==> Lower(s) == s
    ensures NoSpace(s) ==> NoSpace(Lower(s))
    ensures |Lower(s)| == |s|
  {
  }

  /** An interleaving starts with its first word and ends with its last. */
  lemma {:induction false} InterleaveEnds(words: seq<string>, seps: seq<string>)
    requires |words| == |seps| + 1
    requires forall i :: 0 <= i < |words| ==> words[i] != []
    ensures Interleave(words, seps) != []
    ensures Interleave(words, seps)[0] == words[0][0]
    ensures Interleave(words, seps)[|Interleave(words, seps)| - 1] == words[|words| - 1][|words[|words| - 1]| - 1]
  {
    if |words| > 1 {
      InterleaveEnds(words[1..], seps[1..]);
    }
  }

  lemma {:induction false} LowerInterleave(words: seq<string>, seps: seq<string>)
    requires |words| == |seps| + 1
    requires forall i :: 0 <= i < |seps| ==> AllSpace(seps[i])
    ensures Lower(Interleave(words, seps)) == Interleave(LowerAll(words), seps)
  {
    if |words| > 1 {
      var rest := Interleave(words[1..], seps[1..]);
      assert Lower(rest) == Interleave(LowerAll(words[1..]), seps[1..]) by {
        LowerInterleave(words[1..], seps[1..]);
      }
      assert LowerAll(words)[1..] == LowerAll(words[1..]);
      assert Lower(seps[0] + rest) == seps[0] + Lower(rest) by {
        LowerAppend(seps[0], rest);
        LowerKeepsSpaces(seps[0]);
      }
      LowerAppend(words[0], seps[0] + rest);
    }
  }

  /** A whitespace run followed by the end or by a non-whitespace
      character becomes a single underscore. */
  lemma {:induction false} CollapseRunsRun(g: string, rest: string)
    requires g != [] && AllSpace(g) && (rest == [] || !IsSpace(rest[0]))
    ensures CollapseRuns(g + rest) == ['_'] + CollapseRuns(rest)
  {
    var u := g + rest;
    assert u[0] == g[0];
    assert u[1..] == g[1..] + rest;
    if |g| > 1 {
      assert u[1] == g[1];
      CollapseRunsRun(g[1..], rest);
    } else {
      assert u[1..] == rest;
    }
  }

  /** A word, a whitespace run and the rest: the word is kept and the run
      becomes a single underscore. */
  lemma CollapseRunsStep(w: string, g: string, rest: string)
    requires NoSpace(w) && g != [] && AllSpace(g) && (rest == [] || !IsSpace(rest[0]))
    ensures CollapseRuns(w + (g + rest)) == w + ("_" + CollapseRuns(rest))
  {
    var v := g + rest;
    var c := CollapseRuns(rest);
    assert CollapseRuns(v) == ['_'] + c by {
      CollapseRunsRun(g, rest);
    }
    assert CollapseRuns(w + v) == w + (['_'] + c) by {
      CollapseRunsWordPrefix(w, v);
    }
  }

  lemma {:induction false} CollapseInterleave(words: seq<string>, seps: seq<string>)
    requires |words| == |seps| + 1
    requires forall i :: 0 <= i < |words| ==> words[i] != [] && NoSpace(words[i])
    requires forall i :: 0 <= i < |seps| ==> seps[i] != [] && AllSpace(seps[i])
    ensures CollapseRuns(Interleave(words, seps)) == Join(words)
  {
    if |words| == 1 {
      CollapseRunsNoSpace(words[0]);
    } else {
      var ws, gs := words[1..], seps[1..];
      assert forall i :: 0 <= i < |ws| ==> ws[i] == words[i + 1];
      assert forall i :: 0 <= i < |gs| ==> gs[i] == seps[i + 1];
      InterleaveEnds(ws, gs);
      CollapseRunsStep(words[0], seps[0], Interleave(ws, gs));
      CollapseInterleave(ws, gs);
    }
  }

  /** Normalization of a split string: the leading and trailing whitespace
      vanish, every internal whitespace run becomes exactly one `_`, and each
      word is lowercased. */
  lemma NormalizeLayout(lead: string, words: seq<string>, seps: seq<string>, trail: string)
    requires IsLayout(lead, words, seps, trail)
    ensures Normalize(lead + Interleave(words, seps) + trail) == Join(LowerAll(words))
  {
    var m := Interleave(words, seps);
    InterleaveEnds(words, seps);
    assert lead + m + trail == lead + (m + trail);
    TrimStartPastSpaces(lead, m + trail);
    TrimEndPastSpaces(m, trail);
    assert Trim(lead + m + trail) == m;
    LowerInterleave(words, seps);
    forall i | 0 <= i < |words| ensures LowerAll(words)[i] != [] && NoSpace(LowerAll(words)[i]) {
      LowerKeepsSpaces(words[i]);
    }
    CollapseInterleave(LowerAll(words), seps);
  }

  /** A non-whitespace character before a layout with no leading
      whitespace joins its first word. */
  lemma LayoutGrowWord(c: char, words: seq<string>, seps: seq<string>, trail: string)
    requires !IsSpace(c) && IsLayout([], words, seps, trail)
    ensures IsLayout([], [[c] + words[0]] + words[1..], seps, trail)
    ensures Interleave([[c] + words[0]] + words[1..], seps) == [c] + Interleave(words, seps)
  {
    var ws := [[c] + words[0]] + words[1..];
    assert ws[1..] == words[1..];
    forall i | 0 <= i < |ws| ensures ws[i] != [] && NoSpace(ws[i]) {
      if i > 0 {
        assert ws[i] == words[i];
      }
    }
  }

  /** A non-whitespace character before a layout with leading whitespace
      is a new first word, and that whitespace its separator. */
  lemma LayoutNewWord(c: char, lead: string, words: seq<string>, seps: seq<string>, trail: string)
    requires !IsSpace(c) && lead != [] && IsLayout(lead, words, seps, trail)
    ensures IsLayout([], [[c]] + words, [lead] + seps, trail)
    ensures Interleave([[c]] + words, [lead] + seps) == [c] + lead + Interleave(words, seps)
  {
    var ws, gs := [[c]] + words, [lead] + seps;
    assert ws[1..] == words && gs[1..] == seps;
    forall i | 0 <= i < |ws| ensures ws[i] != [] && NoSpace(ws[i]) {
      if i > 0 {
        assert ws[i] == words[i - 1];
      }
    }
    forall i | 0 <= i < |gs| ensures gs[i] != [] && AllSpace(gs[i]) {
      if i > 0 {
        assert gs[i] == seps[i - 1];
      }
    }
  }

  /** Every string is either all whitespace or splits at its maximal
      whitespace runs, so NormalizeLayout covers every non-blank input. */
  lemma {:induction false} LayoutExists(s: string) returns (lead: string, words: seq<string>, seps: seq<string>, trail: string)
    ensures !AllSpace(s) ==> IsLayout(lead, words, seps, trail) && s == lead + Interleave(words, seps) + trail
  {
    if s == [] {
      lead, words, seps, trail := [], [], [], [];
      return;
    }
    var c, t := s[0], s[1..];
    assert s == [c] + t;
    var l', w', p', r' := LayoutExists(t);
    if IsSpace(c) {
      lead, words, seps, trail := [c] + l', w', p', r';
      if !AllSpace(s) {
        assert !AllSpace(t);
        assert s == lead + Interleave(words, seps) + trail;
      }
    } else if AllSpace(t) {
      lead, words, seps, trail := [], [[c]], [], t;
    } else if l' == [] {
      lead, words, seps, trail := [], [[c] + w'[0]] + w'[1..], p', r';
      LayoutGrowWord(c, w', p', r');
      assert t == Interleave(w', p') + r';
    } else {
      lead, words, seps, trail := [], [[c]] + w', [l'] + p', r';
      LayoutNewWord(c, l', w', p', r');
    }
  }

  lemma JoinTwo(a: string, b: string)
    ensures Join([a, b]) == a + "_" + b
  {
    assert [a, b][1..] == [b];
  }

  lemma JoinChickenBreast()
    ensures "chicken" + "_" + "breast" == "chicken_breast"
  {
  }

  lemma LowerChickenBreast()
    ensures LowerAll(["Chicken", "Breast"]) == ["chicken", "breast"]
  {
    var c := Lower("Chicken");
    assert |c| == 7;
    assert c[0] == 'c' && c[1] == 'h' && c[2] == 'i' && c[3] == 'c' && c[4] == 'k' && c[5] == 'e' && c[6] == 'n';
    assert c == "chicken";
    var b := Lower("Breast");
    assert |b| == 6;
    assert b[0] == 'b' && b[1] == 'r' && b[2] == 'e' && b[3] == 'a' && b[4] == 's' && b[5] == 't';
    assert b == "breast";
  }

  /** The worked example of the order form: "Chicken Breast " becomes
      "chicken_breast". */
  lemma NormalizeChickenBreast(raw: string)
    requires raw == "Chicken Breast "
    ensures Normalize(raw) == "chicken_breast"
  {
    var words := ["Chicken", "Breast"];
    assert Interleave(words, [" "]) == "Chicken Breast";
    assert raw == "" + Interleave(words, [" "]) + " ";
    assert Normalize(raw) == Join(LowerAll(words)) by {
      NormalizeLayout("", words, [" "], " ");
    }
    assert LowerAll(words) == ["chicken", "breast"] by {
      LowerChickenBreast();
    }
    JoinTwo("chicken", "breast");
    JoinChickenBreast();
  }
}
