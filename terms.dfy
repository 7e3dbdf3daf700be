/**
 * Term synthesis (kmap.py:143-151, 234-254): the labels of a region's
 * cells are collapsed bit by bit into a pattern over `1`, `0` and `-`,
 * and the pattern is spelled with the variable names.
 */
module Terms {
  import opened Layout

  /** `int(ch)` on a binary digit. */
  function DigitValue(ch: char): int
    requires ch == '0' || ch == '1'
  {
    if ch == '1' then 1 else 0
  }

  /** `sum(int(i) for i in t)`. */
  function Sum(t: string): int
    requires IsBinary(t)
  {
    if t == [] then 0 else Sum(t[..|t| - 1]) + DigitValue(t[|t| - 1])
  }

  /** The sum counts the ones: it is the length exactly when all are ones, 0 exactly when none is. */
  lemma {:induction false} SumCounts(t: string)
    requires IsBinary(t)
    ensures 0 <= Sum(t) <= |t|
    ensures Sum(t) == |t| <==> forall k :: 0 <= k < |t| ==> t[k] == '1'
    ensures Sum(t) == 0 <==> forall k :: 0 <= k < |t| ==> t[k] == '0'
  {
    if t != [] {
      var init := t[..|t| - 1];
      assert IsBinary(init);
      SumCounts(init);
      assert forall k :: 0 <= k < |init| ==> init[k] == t[k];
    }
  }

  /**
   * `__simplify_terms` (kmap.py:247-254): the digits one bit position takes
   * across a region's labels become `1` when all are one, `0` when all are
   * zero, and `-` when they are mixed.
   */
  function SimplifyTerms(t: string): (r: char)
    requires IsBinary(t) && |t| > 0
    ensures r == '1' <==> forall k :: 0 <= k < |t| ==> t[k] == '1'
    ensures r == '0' <==> forall k :: 0 <= k < |t| ==> t[k] == '0'
    ensures r == '-' <==> (exists k :: 0 <= k < |t| && t[k] == '1') && (exists k :: 0 <= k < |t| && t[k] == '0')
  {
    SumCounts(t);
    var s := Sum(t);
    if s == |t| then '1' else if s == 0 then '0' else '-'
  }

  /** All strings are binary numerals of length `n`. */
  predicate Numerals(terms: seq<string>, n: nat) {
    forall k :: 0 <= k < |terms| ==> |terms[k]| == n && IsBinary(terms[k])
  }

  /** Bit position `i` of every label: one argument tuple of `map(f, *terms)`. */
  function Column(terms: seq<string>, i: nat): (r: string)
    requires forall k :: 0 <= k < |terms| ==> i < |terms[k]|
  {
    seq(|terms|, k requires 0 <= k < |terms| => terms[k][i])
  }

  /** `map(self.__simplify_terms, *terms)` over labels of one length (kmap.py:242). */
  function Collapse(terms: seq<string>, n: nat): (r: string)
    requires |terms| > 0 && Numerals(terms, n)
    ensures |r| == n
  {
    seq(n, i requires 0 <= i < n => SimplifyTerms(Column(terms, i)))
  }

  /** Reference definition of a region's pattern, from the set of its labels. */
  function Pattern(labels: set<string>, n: nat): (r: string)
    requires forall l :: l in labels ==> |l| == n
    ensures |r| == n && IsPattern(r)
  {
    seq(n, i requires 0 <= i < n =>
      if forall l :: l in labels ==> l[i] == '1' then '1'
      else if forall l :: l in labels ==> l[i] == '0' then '0'
      else '-')
  }

  /** A pattern is true on a label when every constant position agrees with it. */
  predicate Matches(pattern: string, cellLabel: string) {
    |pattern| == |cellLabel| && forall i :: 0 <= i < |pattern| ==> pattern[i] == '-' || pattern[i] == cellLabel[i]
  }

  /**
   * The collapse does not depend on the order in which the labels are
   * listed: it is the pattern of their set, in which a position is
   * constant exactly when all labels agree there.
   */
  lemma CollapseIsPattern(terms: seq<string>, n: nat)
    requires |terms| > 0 && Numerals(terms, n)
    ensures forall l :: l in (set k | 0 <= k < |terms| :: terms[k]) ==> |l| == n
    ensures Collapse(terms, n) == Pattern(set k | 0 <= k < |terms| :: terms[k], n)
  {
    var labels := set k | 0 <= k < |terms| :: terms[k];
    var c, p := Collapse(terms, n), Pattern(labels, n);
    forall i | 0 <= i < n ensures c[i] == p[i] {
      var col := Column(terms, i);
      assert IsBinary(col);
      assert terms[0] in labels;
      var all1 := forall l :: l in labels ==> l[i] == '1';
      var all0 := forall l :: l in labels ==> l[i] == '0';
      assert all1 <==> forall k :: 0 <= k < |col| ==> col[k] == '1' by {
        if !all1 {
          var l :| l in labels && l[i] != '1';
          var k :| 0 <= k < |terms| && terms[k] == l;
          assert col[k] != '1';
        }
      }
      assert all0 <==> forall k :: 0 <= k < |col| ==> col[k] == '0' by {
        if !all0 {
          var l :| l in labels && l[i] != '0';
          var k :| 0 <= k < |terms| && terms[k] == l;
          assert col[k] != '0';
        }
      }
    }
  }

  /** Every label of a region satisfies the region's product term. */
  lemma PatternMatchesLabels(labels: set<string>, n: nat, l: string)
    requires forall l' :: l' in labels ==> |l'| == n
    requires l in labels
    ensures Matches(Pattern(labels, n), l)
  {
  }

  predicate IsPattern(p: string) {
    forall k :: 0 <= k < |p| ==> p[k] == '-' || p[k] == '0' || p[k] == '1'
  }

  /** The literal the lookup `{"-": "", "0": v + "'", "1": v}` gives. */
  function Literal(bit: char, v: string): string
    requires bit == '-' || bit == '0' || bit == '1'
  {
    if bit == '-' then "" else if bit == '0' then v + "'" else v
  }

  /** `__binary_to_vars` (kmap.py:143-151): `zip` stops at the shorter of the two. */
  function BinaryToVars(binary: string, variables: seq<string>): string
    requires IsPattern(binary)
  {
    if binary == [] || variables == [] then ""
    else Literal(binary[0], variables[0]) + BinaryToVars(binary[1..], variables[1..])
  }

  /** `sep.join(terms)`. */
  function Join(terms: seq<string>, sep: string): string {
    if |terms| == 0 then "" else if |terms| == 1 then terms[0] else terms[0] + sep + Join(terms[1..], sep)
  }

  /** The position of the first space in `s`, or `|s|` when there is none. */
  function FirstSpace(s: string): (i: nat)
    ensures i <= |s| && (i < |s| ==> s[i] == ' ')
    ensures forall k :: 0 <= k < i ==> s[k] != ' '
  {
    if s == [] || s[0] == ' ' then 0 else 1 + FirstSpace(s[1..])
  }

  /** Cuts an expression at each `" + "` back into its terms. */
  function SplitTerms(s: string): (r: seq<string>)
    decreases |s|
  {
    var i := FirstSpace(s);
    if i + 3 <= |s| && s[i..i + 3] == " + " then [s[..i]] + SplitTerms(s[i + 3..]) else [s]
  }

  /** Joining terms without spaces by `" + "` and cutting the result again gives the terms back. */
  lemma {:induction false} JoinSplits(terms: seq<string>)
    requires |terms| > 0
    requires forall k :: 0 <= k < |terms| ==> ' ' !in terms[k]
    ensures SplitTerms(Join(terms, " + ")) == terms
  {
    var s := Join(terms, " + ");
    var t := terms[0];
    assert ' ' !in t;
    if |terms| > 1 {
      var rest := Join(terms[1..], " + ");
      assert s == t + " + " + rest;
      var i := FirstSpace(s);
      assert s[|t|] == ' ';
      assert i == |t|;
      assert s[i..i + 3] == " + ";
      assert s[..i] == t;
      assert s[i + 3..] == rest;
      JoinSplits(terms[1..]);
      assert terms == [t] + terms[1..];
    }
  }

  /** A term spells no space when no variable name holds one. */
  lemma {:induction false} TermHasNoSpace(binary: string, variables: seq<string>)
    requires IsPattern(binary)
    requires forall j :: 0 <= j < |variables| ==> ' ' !in variables[j]
    ensures ' ' !in BinaryToVars(binary, variables)
  {
    if binary != [] && variables != [] {
      assert ' ' !in variables[0];
      TermHasNoSpace(binary[1..], variables[1..]);
      assert ' ' !in Literal(binary[0], variables[0]);
    }
  }

  /** Names that can be read back from a term: single characters, pairwise distinct, not the prime. */
  predicate Readable(variables: seq<string>) {
    && (forall j :: 0 <= j < |variables| ==> |variables[j]| == 1 && variables[j] != "'")
    && (forall j, j' :: 0 <= j < j' < |variables| ==> variables[j] != variables[j'])
  }

  /** Reads a product term back into its pattern, one variable at a time. */
  function ParseTerm(s: string, variables: seq<string>): (p: string)
    ensures |p| == |variables|
    decreases |variables|
  {
    if variables == [] then []
    else if |s| >= 2 && s[..2] == variables[0] + "'" then "0" + ParseTerm(s[2..], variables[1..])
    else if |s| >= 1 && s[..1] == variables[0] then "1" + ParseTerm(s[1..], variables[1..])
    else "-" + ParseTerm(s, variables[1..])
  }

  /** A non-empty term starts with one of the variables it spells. */
  lemma {:induction false} TermStart(p: string, variables: seq<string>)
    requires IsPattern(p) && Readable(variables)
    ensures var s := BinaryToVars(p, variables);
            s == "" || exists j :: 0 <= j < |variables| && s[0] == variables[j][0]
  {
    if p != [] && variables != [] {
      assert Readable(variables[1..]);
      assert IsPattern(p[1..]);
      TermStart(p[1..], variables[1..]);
      var rest := BinaryToVars(p[1..], variables[1..]);
      if p[0] == '-' && rest != "" {
        var j :| 0 <= j < |variables[1..]| && rest[0] == variables[1..][j][0];
        assert rest[0] == variables[j + 1][0];
      } else if p[0] != '-' {
        assert BinaryToVars(p, variables)[0] == variables[0][0];
      }
    }
  }

  lemma ParseComplemented(v: string, rest: string, vs: seq<string>)
    requires |v| == 1
    ensures ParseTerm(v + "'" + rest, [v] + vs) == "0" + ParseTerm(rest, vs)
  {
    var s := v + "'" + rest;
    assert s[..2] == v + "'" && s[2..] == rest;
    assert ([v] + vs)[1..] == vs;
  }

  lemma ParsePlain(v: string, rest: string, vs: seq<string>)
    requires |v| == 1 && (rest == "" || rest[0] != '\'')
    ensures ParseTerm(v + rest, [v] + vs) == "1" + ParseTerm(rest, vs)
  {
    var s := v + rest;
    assert s[..1] == v && s[1..] == rest;
    assert !(|s| >= 2 && s[..2] == v + "'") by {
      if |s| >= 2 {
        assert s[1] == rest[0];
        assert (v + "'")[1] == '\'';
      }
    }
    assert ([v] + vs)[1..] == vs;
  }

  lemma ParseAbsent(v: string, rest: string, vs: seq<string>)
    requires |v| == 1 && (rest == "" || rest[0] != v[0])
    ensures ParseTerm(rest, [v] + vs) == "-" + ParseTerm(rest, vs)
  {
    assert v == [v[0]] && (v + "'")[0] == v[0];
    assert |rest| >= 1 ==> rest[..1][0] == rest[0] && rest[..1] != v;
    assert |rest| >= 2 ==> rest[..2][0] == rest[0] && rest[..2] != v + "'";
    assert ([v] + vs)[1..] == vs;
  }

  /**
   * The rendering loses nothing: with readable variable names, the term
   * `__binary_to_vars` spells can be read back into the pattern.
   */
  lemma {:induction false} BinaryToVarsRoundTrip(p: string, variables: seq<string>)
    requires IsPattern(p) && Readable(variables) && |p| == |variables|
    ensures ParseTerm(BinaryToVars(p, variables), variables) == p
  {
    if p != [] {
      var v, vs := variables[0], variables[1..];
      assert variables == [v] + vs;
      assert Readable(vs) && IsPattern(p[1..]);
      var rest := BinaryToVars(p[1..], vs);
      assert BinaryToVars(p, variables) == Literal(p[0], v) + rest;
      BinaryToVarsRoundTrip(p[1..], vs);
      TermStart(p[1..], vs);
      assert rest != "" ==> rest[0] != '\'' && rest[0] != v[0] by {
        if rest != "" {
          var j :| 0 <= j < |vs| && rest[0] == vs[j][0];
          assert vs[j] == variables[j + 1];
          assert |vs[j]| == 1 && vs[j] != "'" && vs[j] != v;
          assert vs[j] == [vs[j][0]] && v == [v[0]];
        }
      }
      var s := BinaryToVars(p, variables);
      assert p == [p[0]] + p[1..];
      if p[0] == '0' {
        assert s == v + "'" + rest;
        ParseComplemented(v, rest, vs);
      } else if p[0] == '1' {
        assert s == v + rest;
        ParsePlain(v, rest, vs);
      } else {
        assert s == rest;
        ParseAbsent(v, rest, vs);
      }
    }
  }

  // ---------------------------------------------------------------------
  // Patterns of label sets

  /** A pattern without `-` matches only its own numeral. */
  lemma MatchesConstant(p: string, l: string)
    requires IsBinary(p) && Matches(p, l)
    ensures l == p
  {
  }

  /** The pattern of a single label is the label itself. */
  lemma PatternSingleton(l: string, n: nat)
    requires |l| == n && IsBinary(l)
    ensures Pattern({l}, n) == l
  {
    var p := Pattern({l}, n);
    forall i | 0 <= i < n ensures p[i] == l[i] {
      assert l in {l};
    }
  }

  /** Two numerals at Hamming distance 1 differ at exactly one position. */
  lemma {:induction false} HammingOne(u: string, v: string)
    requires |u| == |v| && Hamming(u, v) == 1
    ensures exists j :: 0 <= j < |u| && u[j] != v[j] && forall k :: 0 <= k < |u| && k != j ==> u[k] == v[k]
  {
    if u[0] == v[0] {
      HammingOne(u[1..], v[1..]);
      var j :| 0 <= j < |u| - 1 && u[1..][j] != v[1..][j] && forall k :: 0 <= k < |u| - 1 && k != j ==> u[1..][k] == v[1..][k];
      assert u[j + 1] != v[j + 1];
      forall k | 0 <= k < |u| && k != j + 1 ensures u[k] == v[k] {
        if k > 0 {
          assert u[1..][k - 1] == v[1..][k - 1];
        }
      }
    } else {
      HammingZero(u[1..], v[1..]);
      forall k | 0 <= k < |u| && k != 0 ensures u[k] == v[k] {
        assert u[1..][k - 1] == v[1..][k - 1];
      }
    }
  }

  lemma {:induction false} HammingZero(u: string, v: string)
    requires |u| == |v| && Hamming(u, v) == 0
    ensures u == v
  {
    if u != [] {
      HammingZero(u[1..], v[1..]);
      assert u == [u[0]] + u[1..] && v == [v[0]] + v[1..];
    }
  }

  /**
   * The pattern of two numerals one bit apart matches exactly those two:
   * this is why Gray-adjacent cells group into one term.
   */
  lemma PatternPair(u: string, v: string, w: string, n: nat)
    requires |u| == n && |v| == n && IsBinary(u) && IsBinary(v) && IsBinary(w)
    requires Hamming(u, v) == 1
    requires Matches(Pattern({u, v}, n), w)
    ensures w == u || w == v
  {
    HammingOne(u, v);
    var j :| 0 <= j < n && u[j] != v[j] && forall k :: 0 <= k < n && k != j ==> u[k] == v[k];
    var p := Pattern({u, v}, n);
    assert u in {u, v} && v in {u, v};
    forall k | 0 <= k < n && k != j ensures w[k] == u[k] {
      assert forall l :: l in {u, v} ==> l[k] == u[k];
    }
    if w[j] == u[j] {
      assert w == u;
    } else {
      assert w[j] == v[j];
      assert w == v;
    }
  }

  /**
   * The pattern of all concatenations `s + t` of two non-empty sets is the
   * concatenation of the two patterns: a rectangle's term is its row term
   * followed by its column term.
   */
  lemma PatternProduct(labels: set<string>, rows: set<string>, entries: set<string>, a: nat, b: nat)
    requires rows != {} && entries != {}
    requires forall s :: s in rows ==> |s| == a
    requires forall t :: t in entries ==> |t| == b
    requires forall l :: l in labels <==> exists s, t :: s in rows && t in entries && l == s + t
    ensures forall l :: l in labels ==> |l| == a + b
    ensures Pattern(labels, a + b) == Pattern(rows, a) + Pattern(entries, b)
  {
    ProductLengths(labels, rows, entries, a, b);
    PatternProductLeft(labels, rows, entries, a, b);
    PatternProductRight(labels, rows, entries, a, b);
    var p, pa, pb := Pattern(labels, a + b), Pattern(rows, a), Pattern(entries, b);
    forall i | 0 <= i < a + b ensures p[i] == (pa + pb)[i] {
      if i >= a {
        assert p[a + (i - a)] == pb[i - a];
      }
    }
  }

  lemma PatternProductLeft(labels: set<string>, rows: set<string>, entries: set<string>, a: nat, b: nat)
    requires entries != {}
    requires forall s :: s in rows ==> |s| == a
    requires forall t :: t in entries ==> |t| == b
    requires forall l :: l in labels <==> exists s, t :: s in rows && t in entries && l == s + t
    requires forall l :: l in labels ==> |l| == a + b
    ensures forall i :: 0 <= i < a ==> Pattern(labels, a + b)[i] == Pattern(rows, a)[i]
  {
    forall i | 0 <= i < a ensures Pattern(labels, a + b)[i] == Pattern(rows, a)[i] {
      ProductLeft(labels, rows, entries, a, b, i, '1');
      ProductLeft(labels, rows, entries, a, b, i, '0');
      PatternAgree(labels, a + b, i, rows, a, i);
    }
  }

  lemma PatternProductRight(labels: set<string>, rows: set<string>, entries: set<string>, a: nat, b: nat)
    requires rows != {}
    requires forall s :: s in rows ==> |s| == a
    requires forall t :: t in entries ==> |t| == b
    requires forall l :: l in labels <==> exists s, t :: s in rows && t in entries && l == s + t
    requires forall l :: l in labels ==> |l| == a + b
    ensures forall j :: 0 <= j < b ==> Pattern(labels, a + b)[a + j] == Pattern(entries, b)[j]
  {
    forall j | 0 <= j < b ensures Pattern(labels, a + b)[a + j] == Pattern(entries, b)[j] {
      ProductRight(labels, rows, entries, a, b, j, '1');
      ProductRight(labels, rows, entries, a, b, j, '0');
      PatternAgree(labels, a + b, a + j, entries, b, j);
    }
  }

  /** Two positions whose bits are constant together get the same pattern character. */
  lemma PatternAgree(labels: set<string>, n: nat, i: nat, others: set<string>, m: nat, j: nat)
    requires i < n && j < m
    requires forall l :: l in labels ==> |l| == n
    requires forall l :: l in others ==> |l| == m
    requires (forall l :: l in labels ==> l[i] == '1') <==> (forall l :: l in others ==> l[j] == '1')
    requires (forall l :: l in labels ==> l[i] == '0') <==> (forall l :: l in others ==> l[j] == '0')
    ensures Pattern(labels, n)[i] == Pattern(others, m)[j]
  {
  }

  lemma ProductLengths(labels: set<string>, rows: set<string>, entries: set<string>, a: nat, b: nat)
    requires forall s :: s in rows ==> |s| == a
    requires forall t :: t in entries ==> |t| == b
    requires forall l :: l in labels <==> exists s, t :: s in rows && t in entries && l == s + t
    ensures forall l :: l in labels ==> |l| == a + b
  {
    forall l | l in labels ensures |l| == a + b {
      var s, t :| s in rows && t in entries && l == s + t;
    }
  }

  lemma ProductLeft(labels: set<string>, rows: set<string>, entries: set<string>, a: nat, b: nat, i: nat, c: char)
    requires entries != {} && i < a
    requires forall s :: s in rows ==> |s| == a
    requires forall t :: t in entries ==> |t| == b
    requires forall l :: l in labels <==> exists s, t :: s in rows && t in entries && l == s + t
    requires forall l :: l in labels ==> |l| == a + b
    ensures (forall l :: l in labels ==> l[i] == c) <==> (forall s :: s in rows ==> s[i] == c)
  {
    var t0 :| t0 in entries;
    if forall l :: l in labels ==> l[i] == c {
      forall s | s in rows ensures s[i] == c {
        assert s + t0 in labels && (s + t0)[i] == s[i];
      }
    }
  }

  lemma ProductRight(labels: set<string>, rows: set<string>, entries: set<string>, a: nat, b: nat, j: nat, c: char)
    requires rows != {} && j < b
    requires forall s :: s in rows ==> |s| == a
    requires forall t :: t in entries ==> |t| == b
    requires forall l :: l in labels <==> exists s, t :: s in rows && t in entries && l == s + t
    requires forall l :: l in labels ==> |l| == a + b
    ensures (forall l :: l in labels ==> l[a + j] == c) <==> (forall t :: t in entries ==> t[j] == c)
  {
    var s0 :| s0 in rows;
    if forall l :: l in labels ==> l[a + j] == c {
      forall t | t in entries ensures t[j] == c {
        assert s0 + t in labels && (s0 + t)[a + j] == t[j];
      }
    }
    if forall t :: t in entries ==> t[j] == c {
      forall l | l in labels ensures l[a + j] == c {
        var s, t :| s in rows && t in entries && l == s + t;
        assert l[a + j] == t[j];
      }
    }
  }

  /** A concatenated pattern matches a concatenated label exactly when both halves match. */
  lemma MatchesConcat(p: string, q: string, s: string, t: string)
    requires |p| == |s|
    ensures Matches(p + q, s + t) <==> Matches(p, s) && Matches(q, t)
  {
    if Matches(p + q, s + t) {
      forall i | 0 <= i < |p| ensures p[i] == '-' || p[i] == s[i] {
        assert (p + q)[i] == p[i] && (s + t)[i] == s[i];
      }
      forall i | 0 <= i < |q| ensures q[i] == '-' || q[i] == t[i] {
        assert (p + q)[|p| + i] == q[i] && (s + t)[|p| + i] == t[i];
      }
    }
    if Matches(p, s) && Matches(q, t) {
      forall i | 0 <= i < |p + q| ensures (p + q)[i] == '-' || (p + q)[i] == (s + t)[i] {
        if i >= |p| {
          assert (p + q)[i] == q[i - |p|] && (s + t)[i] == t[i - |p|];
        }
      }
    }
  }
}
