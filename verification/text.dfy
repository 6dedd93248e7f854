/** The JavaScript string operations the core relies on: `toLowerCase`,
    `toUpperCase` (restricted to ASCII letters), `trim` (with the exact
    JavaScript whitespace and line-terminator set) and `split` on one
    separator character, together with the facts the rest of the model needs
    about them. */
module Text {

  /** An ASCII capital letter. */
  predicate IsUpper(c: char) { 'A' <= c <= 'Z' }

  /** An ASCII small letter. */
  predicate IsLower(c: char) { 'a' <= c <= 'z' }

  /** `toLowerCase` on one character, restricted to ASCII. */
  function LowerChar(c: char): (d: char)
    ensures !IsUpper(d)
    ensures !IsUpper(c) ==> d == c
    ensures IsUpper(c) ==> IsLower(d) && d as int == c as int + 32
  {
    if IsUpper(c) then (c as int + 32) as char else c
  }

  /** `toUpperCase` on one character, restricted to ASCII. */
  function UpperChar(c: char): (d: char)
    ensures !IsLower(d)
    ensures !IsLower(c) ==> d == c
    ensures IsLower(c) ==> IsUpper(d) && d as int == c as int - 32
  {
    if IsLower(c) then (c as int - 32) as char else c
  }

  /** Two characters agree up to ASCII case exactly when their upper-case
      forms agree, exactly when their lower-case forms agree. */
  lemma CaseFoldsAgree(a: char, b: char)
    ensures UpperChar(a) == UpperChar(b) <==> LowerChar(a) == LowerChar(b)
  {
  }

  /** No ASCII capital letter occurs in `s`. */
  predicate NoUpper(s: string) {
    forall i | 0 <= i < |s| :: !IsUpper(s[i])
  }

  /** `s.toLowerCase()` for ASCII text. */
  function ToLower(s: string): (r: string)
    ensures |r| == |s|
    ensures NoUpper(r)
    ensures forall i | 0 <= i < |s| :: !IsUpper(s[i]) ==> r[i] == s[i]
    ensures forall i | 0 <= i < |s| :: IsUpper(s[i]) ==> r[i] as int == s[i] as int + 32
  {
    seq(|s|, i requires 0 <= i < |s| => LowerChar(s[i]))
  }

  /** `s.toUpperCase()` for ASCII text. */
  function ToUpper(s: string): (r: string)
    ensures |r| == |s|
    ensures forall i | 0 <= i < |s| :: !IsLower(r[i])
    ensures forall i | 0 <= i < |s| :: !IsLower(s[i]) ==> r[i] == s[i]
    ensures forall i | 0 <= i < |s| :: IsLower(s[i]) ==> r[i] as int == s[i] as int - 32
  {
    seq(|s|, i requires 0 <= i < |s| => UpperChar(s[i]))
  }

  /** Text without capitals is its own lower-case form. */
  lemma LowerFixesLower(s: string)
    requires NoUpper(s)
    ensures ToLower(s) == s
  {
  }

  /** Comparing two strings after `toUpperCase` is the same as comparing them
      after `toLowerCase`: both compare up to ASCII case. */
  lemma {:induction false} UpperEqIffLowerEq(s: string, t: string)
    ensures ToUpper(s) == ToUpper(t) <==> ToLower(s) == ToLower(t)
  {
    if |s| == |t| {
      forall i | 0 <= i < |s|
        ensures ToUpper(s)[i] == ToUpper(t)[i] <==> ToLower(s)[i] == ToLower(t)[i]
      {
        CaseFoldsAgree(s[i], t[i]);
      }
      if ToUpper(s) == ToUpper(t) {
        assert forall i | 0 <= i < |s| :: ToLower(s)[i] == ToLower(t)[i];
      }
      if ToLower(s) == ToLower(t) {
        assert forall i | 0 <= i < |s| :: ToUpper(s)[i] == ToUpper(t)[i];
      }
    }
  }

  /** A character `String.prototype.trim` removes: the ECMAScript WhiteSpace
      and LineTerminator code points. */
  predicate IsSpace(c: char) {
    var n := c as int;
    || n == 0x09 || n == 0x0A || n == 0x0B || n == 0x0C || n == 0x0D
    || n == 0x20 || n == 0xA0 || n == 0x1680
    || (0x2000 <= n <= 0x200A)
    || n == 0x2028 || n == 0x2029 || n == 0x202F || n == 0x205F
    || n == 0x3000 || n == 0xFEFF
  }

  /** Every character of `s` is whitespace. */
  predicate AllSpace(s: string) {
    forall i | 0 <= i < |s| :: IsSpace(s[i])
  }

  /** `s` neither starts nor ends with whitespace. */
  predicate IsTrimmed(s: string) {
    |s| == 0 || (!IsSpace(s[0]) && !IsSpace(s[|s| - 1]))
  }

  /** `r` is `s` with the whitespace run `s[..i]` removed from its front and
      a whitespace run removed from its back. */
  predicate PadsAt(s: string, r: string, i: nat) {
    && i + |r| <= |s|
    && s[i..i + |r|] == r
    && AllSpace(s[..i])
    && AllSpace(s[i + |r|..])
  }

  /** End of the whitespace run of `s` that starts at `i`: the first index
      from `i` on that is not whitespace, or `|s|`. */
  function SpaceRunEnd(s: string, i: nat): (j: nat)
    requires i <= |s|
    ensures i <= j <= |s|
    ensures forall k | i <= k < j :: IsSpace(s[k])
    ensures j == |s| || !IsSpace(s[j])
    decreases |s| - i
  {
    if i < |s| && IsSpace(s[i]) then SpaceRunEnd(s, i + 1) else i
  }

  /** Start of the whitespace run of `s` that ends at `j`, not going below
      `lo`. */
  function SpaceRunStart(s: string, lo: nat, j: nat): (i: nat)
    requires lo <= j <= |s|
    ensures lo <= i <= j
    ensures forall k | i <= k < j :: IsSpace(s[k])
    ensures i == lo || !IsSpace(s[i - 1])
    decreases j
  {
    if lo < j && IsSpace(s[j - 1]) then SpaceRunStart(s, lo, j - 1) else j
  }

  /** Length of the leading whitespace run of `s`. */
  function LeadingSpace(s: string): (n: nat)
    ensures n <= |s| && AllSpace(s[..n])
    ensures n == |s| || !IsSpace(s[n])
  {
    SpaceRunEnd(s, 0)
  }

  /** `s.trim()`: the trimmed core of `s`, which starts right after the
      leading whitespace. */
  function Trim(s: string): (r: string)
    ensures IsTrimmed(r)
    ensures PadsAt(s, r, LeadingSpace(s))
  {
    var i := LeadingSpace(s);
    var j := SpaceRunStart(s, i, |s|);
    assert s[i..j][|s[i..j]|..] == [];
    assert s[i + (j - i)..] == s[j..];
    s[i..j]
  }

  /** A whitespace run from `i` up to a non-space character (or the end) is
      exactly the run `SpaceRunEnd` finds. */
  lemma {:induction false} SpaceRunEndAt(s: string, i: nat, j: nat)
    requires i <= j <= |s|
    requires forall k | i <= k < j :: IsSpace(s[k])
    requires j == |s| || !IsSpace(s[j])
    ensures SpaceRunEnd(s, i) == j
    decreases j - i
  {
    if i < j {
      SpaceRunEndAt(s, i + 1, j);
    }
  }

  /** A whitespace run down from `j` to a non-space character (or `lo`) is
      exactly the run `SpaceRunStart` finds. */
  lemma {:induction false} SpaceRunStartAt(s: string, lo: nat, i: nat, j: nat)
    requires lo <= i <= j <= |s|
    requires forall k | i <= k < j :: IsSpace(s[k])
    requires i == lo || !IsSpace(s[i - 1])
    ensures SpaceRunStart(s, lo, j) == i
    decreases j - i
  {
    if i < j {
      SpaceRunStartAt(s, lo, i, j - 1);
    }
  }

  /** `trim` is characterised by its contract: the only whitespace-free core
      that pads out to `s` is `Trim(s)`. */
  lemma {:induction false} TrimUnique(s: string, r: string, i: nat)
    requires IsTrimmed(r) && PadsAt(s, r, i)
    ensures r == Trim(s)
  {
    var j := i + |r|;
    assert forall k | 0 <= k < i :: IsSpace(s[k]) by {
      forall k | 0 <= k < i ensures IsSpace(s[k]) {
        assert s[..i][k] == s[k];
      }
    }
    assert forall k | j <= k < |s| :: IsSpace(s[k]) by {
      forall k | j <= k < |s| ensures IsSpace(s[k]) {
        assert s[j..][k - j] == s[k];
      }
    }
    if |r| == 0 {
      SpaceRunEndAt(s, 0, |s|);
      SpaceRunStartAt(s, |s|, |s|, |s|);
    } else {
      assert s[i] == r[0] && s[j - 1] == r[|r| - 1];
      SpaceRunEndAt(s, 0, i);
      SpaceRunStartAt(s, i, j, |s|);
    }
  }

  /** Trimming text that is already trimmed changes nothing. */
  lemma TrimFixesTrimmed(s: string)
    requires IsTrimmed(s)
    ensures Trim(s) == s
  {
    assert s[0..0 + |s|] == s && s[..0] == [] && s[|s|..] == [];
    TrimUnique(s, s, 0);
  }

  /** Lower-casing and trimming commute: `toLowerCase` maps whitespace to
      whitespace and nothing else to whitespace. */
  lemma TrimLowerCommute(s: string)
    ensures Trim(ToLower(s)) == ToLower(Trim(s))
  {
    var t := Trim(s);
    var i := LeadingSpace(s);
    LowerPads(s, t, i);
    LowerTrimmed(t);
    TrimUnique(ToLower(s), ToLower(t), i);
  }

  /** Lower-casing both sides keeps the padding relation. */
  lemma LowerPads(s: string, t: string, i: nat)
    requires PadsAt(s, t, i)
    ensures PadsAt(ToLower(s), ToLower(t), i)
  {
    var ls := ToLower(s);
    LowerSlice(s, i, i + |t|);
    LowerSlice(s, 0, i);
    LowerSlice(s, i + |t|, |s|);
    assert s[0..i] == s[..i] && ls[0..i] == ls[..i];
    assert s[i + |t|..|s|] == s[i + |t|..] && ls[i + |t|..|s|] == ls[i + |t|..];
    LowerKeepsSpace(s[..i]);
    LowerKeepsSpace(s[i + |t|..]);
  }

  /** Lower-casing keeps text trimmed. */
  lemma LowerTrimmed(t: string)
    requires IsTrimmed(t)
    ensures IsTrimmed(ToLower(t))
  {
    if |t| > 0 {
      LowerCharSpace(t[0]);
      LowerCharSpace(t[|t| - 1]);
    }
  }

  /** `toLowerCase` commutes with taking a slice. */
  lemma LowerSlice(s: string, lo: nat, hi: nat)
    requires lo <= hi <= |s|
    ensures ToLower(s)[lo..hi] == ToLower(s[lo..hi])
  {
  }

  /** `toLowerCase` neither creates nor removes whitespace. */
  lemma LowerCharSpace(c: char)
    ensures IsSpace(LowerChar(c)) <==> IsSpace(c)
  {
  }

  /** `toLowerCase` leaves whitespace alone. */
  lemma LowerKeepsSpace(s: string)
    requires AllSpace(s)
    ensures ToLower(s) == s
  {
  }

  /** Number of occurrences of `c` in `s`. */
  function Count(s: string, c: char): (n: nat)
    ensures n <= |s|
    ensures n == 0 <==> c !in s
  {
    if |s| == 0 then 0 else (if s[0] == c then 1 else 0) + Count(s[1..], c)
  }

  /** Index of the first occurrence of `c` in `s`. */
  function IndexOf(s: string, c: char): (i: nat)
    requires c in s
    ensures i < |s| && s[i] == c && c !in s[..i]
  {
    if s[0] == c then 0
    else
      var i := IndexOf(s[1..], c);
      assert s[..i + 1] == [s[0]] + s[1..][..i];
      i + 1
  }

  /** `parts.join(sep)`. */
  function Join(parts: seq<string>, sep: char): string
    decreases |parts|
  {
    if |parts| == 0 then []
    else if |parts| == 1 then parts[0]
    else parts[0] + [sep] + Join(parts[1..], sep)
  }

  /** `s.split(sep)` for a one-character separator: the maximal runs of
      text between separators, in order, always at least one. */
  function Split(s: string, sep: char): (parts: seq<string>)
    ensures |parts| >= 1
    ensures sep !in s ==> parts == [s]
    ensures sep in s ==> |parts| >= 2
    ensures forall k | 0 <= k < |parts| :: sep !in parts[k]
    ensures |parts[0]| <= |s| && parts[0] == s[..|parts[0]|]
    ensures |parts[0]| < |s| ==> s[|parts[0]|] == sep
    ensures Join(parts, sep) == s
    decreases |s|
  {
    if sep !in s then [s]
    else
      var i := IndexOf(s, sep);
      var rest := Split(s[i + 1..], sep);
      var parts := [s[..i]] + rest;
      assert parts[1..] == rest;
      assert s == s[..i] + [sep] + s[i + 1..];
      parts
  }

  /** The first separator of `a + [sep] + b` sits right after `a` when `a`
      holds none. */
  lemma IndexOfAfterPrefix(a: string, sep: char, b: string)
    requires sep !in a
    ensures IndexOf(a + [sep] + b, sep) == |a|
  {
    var s := a + [sep] + b;
    assert s[|a|] == sep;
  }

  /** Splitting text that starts with a separator-free part `a` and a
      separator yields `a` followed by the parts of the rest. */
  lemma SplitCons(a: string, sep: char, b: string)
    requires sep !in a
    ensures Split(a + [sep] + b, sep) == [a] + Split(b, sep)
  {
    var s := a + [sep] + b;
    assert s[|a|] == sep;
    IndexOfAfterPrefix(a, sep, b);
    assert s[..|a|] == a;
    assert s[|a| + 1..] == b;
  }

  /** `split` undoes `join` when no part contains the separator. */
  lemma {:induction false} SplitJoin(parts: seq<string>, sep: char)
    requires |parts| >= 1
    requires forall k | 0 <= k < |parts| :: sep !in parts[k]
    ensures Split(Join(parts, sep), sep) == parts
    decreases |parts|
  {
    if |parts| > 1 {
      SplitCons(parts[0], sep, Join(parts[1..], sep));
      SplitJoin(parts[1..], sep);
      assert parts == [parts[0]] + parts[1..];
    }
  }
}
