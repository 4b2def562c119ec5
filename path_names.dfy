/** Output-file naming of the compression worker: the output of `<dir>/<name><ext>` is
    `<dir>/<name>_compressed<ext>`, built from the POSIX `basename`, `dirname`, `splitext`
    and `join` of the input path. */
module PathNames {

  const Sep: char := '/'
  const ExtSep: char := '.'
  const Suffix: string := "_compressed"

  /** Index of the last occurrence of `c` in `s`, or -1 when there is none (`str.rfind`). */
  function RFind(s: string, c: char): (r: int)
    ensures -1 <= r < |s|
    ensures r >= 0 ==> s[r] == c
    ensures forall j :: r < j < |s| ==> s[j] != c
  {
    if s == [] then -1
    else if s[|s| - 1] == c then |s| - 1
    else RFind(s[..|s| - 1], c)
  }

  /** The three properties of `RFind` determine it. */
  lemma RFindUnique(s: string, c: char, r: int)
    requires -1 <= r < |s|
    requires r >= 0 ==> s[r] == c
    requires forall j :: r < j < |s| ==> s[j] != c
    ensures RFind(s, c) == r
  {
  }

  predicate AllSlashes(s: string) {
    forall i :: 0 <= i < |s| ==> s[i] == Sep
  }

  predicate HasNonDot(s: string) {
    exists i :: 0 <= i < |s| && s[i] != ExtSep
  }

  /** `posixpath.basename`: what follows the last separator. */
  function Basename(p: string): string {
    p[RFind(p, Sep) + 1..]
  }

  /** The base name is the suffix of `p` after its last separator and contains none. */
  lemma BasenameShape(p: string)
    ensures Sep !in Basename(p)
    ensures |Basename(p)| <= |p| && Basename(p) == p[|p| - |Basename(p)|..]
    ensures |Basename(p)| < |p| ==> p[|p| - |Basename(p)| - 1] == Sep
  {
  }

  /** `str.rstrip('/')`. */
  function RStripSlashes(s: string): (r: string)
    ensures r <= s
    ensures r == [] || r[|r| - 1] != Sep
    ensures AllSlashes(s[|r|..])
  {
    if s != [] && s[|s| - 1] == Sep then RStripSlashes(s[..|s| - 1]) else s
  }

  /** `posixpath.dirname`: everything up to the last separator, with trailing separators
      removed unless the head consists of separators only. */
  function Dirname(p: string): (r: string)
    ensures r <= p
    ensures r == [] <==> Sep !in p
    ensures r == [] || AllSlashes(r) || r[|r| - 1] != Sep
    ensures |r| <= |p| - |Basename(p)| && AllSlashes(p[|r|..|p| - |Basename(p)|])
  {
    BasenameShape(p);
    var i := RFind(p, Sep) + 1;
    var head := p[..i];
    assert i > 0 ==> head[i - 1] == Sep;
    if head != [] && !AllSlashes(head) then RStripSlashes(head) else head
  }

  /** A head made of separators only is the directory as it stands: `//x` lies in `//`. */
  lemma DirnameShape(p: string)
    ensures AllSlashes(p[..|p| - |Basename(p)|]) ==> Dirname(p) == p[..|p| - |Basename(p)|]
  {
    BasenameShape(p);
  }

  /** `posixpath.splitext`: the extension starts at the last dot of the last path
      component, provided some character before that dot in the component is not a dot. */
  function SplitExt(p: string): (r: (string, string))
    ensures r.0 + r.1 == p
    ensures r.1 == [] || (r.1[0] == ExtSep && ExtSep !in r.1[1..] && Sep !in r.1)
  {
    var sepIndex := RFind(p, Sep);
    var dotIndex := RFind(p, ExtSep);
    if dotIndex > sepIndex && HasNonDot(p[sepIndex + 1..dotIndex]) then
      (p[..dotIndex], p[dotIndex..])
    else
      (p, [])
  }

  /** In the last component of `p`, the character at `k` is not a dot and a later one at
      `j` is. */
  predicate ExtensionDot(p: string, k: int, j: int) {
    0 <= k < j < |p| && p[k] != ExtSep && p[j] == ExtSep && Sep !in p[k..]
  }

  /** When a path has an extension: exactly when its last component holds a dot with some
      other character before it. Leading dots of the component belong to the stem. */
  lemma SplitExtRule(p: string)
    ensures SplitExt(p).1 != [] <==>
      exists k, j :: ExtensionDot(p, k, j)
  {
    if exists k, j :: ExtensionDot(p, k, j) {
      var k, j :| ExtensionDot(p, k, j);
      SplitExtHasExt(p, k, j);
    }
    if SplitExt(p).1 != [] {
      SplitExtWitness(p);
    }
  }

  /** A dot preceded by another character in the last component gives an extension. */
  lemma SplitExtHasExt(p: string, k: int, j: int)
    requires ExtensionDot(p, k, j)
    ensures SplitExt(p).1 != []
  {
    var i := RFind(p, Sep);
    var d := RFind(p, ExtSep);
    assert p[..k] + p[k..] == p;
    RFindAppendAbsent(p[..k], p[k..], Sep);
    assert i < k;
    assert j <= d;
    assert p[i + 1..d][k - i - 1] == p[k];
  }

  /** An extension comes with such a dot and such a character. */
  lemma SplitExtWitness(p: string)
    requires SplitExt(p).1 != []
    ensures exists k, j :: ExtensionDot(p, k, j)
  {
    var i := RFind(p, Sep);
    var d := RFind(p, ExtSep);
    assert d > i && HasNonDot(p[i + 1..d]);
    DotAfterNonDot(p, i, d);
  }

  /** A non-dot in `p[i + 1..d]`, with no separator after `i`, is followed in the same
      component by the dot at `d`. */
  lemma DotAfterNonDot(p: string, i: int, d: int)
    requires -1 <= i < d < |p| && p[d] == ExtSep && HasNonDot(p[i + 1..d])
    requires forall x :: i < x < |p| ==> p[x] != Sep
    ensures exists k :: ExtensionDot(p, k, d)
  {
    var stem := p[i + 1..d];
    var m :| 0 <= m < |stem| && stem[m] != ExtSep;
    var k := i + 1 + m;
    assert p[k] == stem[m];
    var tail := p[k..];
    forall x | 0 <= x < |tail| ensures tail[x] != Sep {
      assert tail[x] == p[k + x];
    }
    assert ExtensionDot(p, k, d);
  }

  /** `posixpath.join(a, b)` for two components. */
  function Join(a: string, b: string): string {
    if |b| > 0 && b[0] == Sep then b
    else if a == [] || a[|a| - 1] == Sep then a + b
    else a + [Sep] + b
  }

  /** `b` always ends the joined path; an absolute `b` is the whole of it. A relative `b`
      follows `a`, and exactly one separator sits between them when `a` is not empty: one
      is added only when `a` does not already end in one. */
  lemma JoinShape(a: string, b: string)
    ensures var r := Join(a, b);
      && |b| <= |r| && r[|r| - |b|..] == b
      && (b != [] && b[0] == Sep ==> r == b)
      && ((b == [] || b[0] != Sep) ==> a <= r && |a| + |b| <= |r| <= |a| + |b| + 1)
      && ((b == [] || b[0] != Sep) && a != [] ==> r[|r| - |b| - 1] == Sep)
      && ((b == [] || b[0] != Sep) ==> |r| == |a| + |b| + (if a != [] && a[|a| - 1] != Sep then 1 else 0))
  {
  }

  /** The file name `<name>_compressed<ext>` of the output. */
  function OutputName(p: string): string {
    var parts := SplitExt(Basename(p));
    parts.0 + Suffix + parts.1
  }

  /** The output path the worker writes for input `p`. */
  function OutputPath(p: string): string {
    Join(Dirname(p), OutputName(p))
  }

  lemma OutputNameHasNoSep(p: string)
    ensures Sep !in OutputName(p)
    ensures |OutputName(p)| == |Basename(p)| + |Suffix|
  {
    var n := Basename(p);
    var parts := SplitExt(n);
    assert parts.0 + parts.1 == n;
    forall i | 0 <= i < |parts.0| ensures parts.0[i] != Sep {
      assert parts.0[i] == n[i];
    }
    forall i | 0 <= i < |parts.1| ensures parts.1[i] != Sep {
      assert parts.1[i] == n[|parts.0| + i];
    }
  }

  /** In a name without separators whose dot at `k` is the last one and follows some
      other character, `SplitExt` cuts at `k`. */
  lemma SplitExtAt(m: string, k: int)
    requires Sep !in m
    requires 0 <= k < |m| && m[k] == ExtSep
    requires forall j :: k < j < |m| ==> m[j] != ExtSep
    requires HasNonDot(m[0..k])
    ensures SplitExt(m) == (m[..k], m[k..])
  {
    RFindUnique(m, Sep, -1);
    RFindUnique(m, ExtSep, k);
  }

  /** Splitting the output name again gives the original stem with the suffix and the
      original extension: the extension is preserved and the suffix sits before it. */
  lemma OutputNameSplits(p: string)
    ensures SplitExt(OutputName(p)) == (SplitExt(Basename(p)).0 + Suffix, SplitExt(Basename(p)).1)
  {
    BasenameShape(p);
    NameSplits(Basename(p));
  }

  /** The same, for a name without separators. */
  lemma NameSplits(n: string)
    requires Sep !in n
    ensures SplitExt(SplitExt(n).0 + Suffix + SplitExt(n).1) == (SplitExt(n).0 + Suffix, SplitExt(n).1)
  {
    var s := SplitExt(n).0;
    var e := SplitExt(n).1;
    assert s + e == n;
    if e == [] {
      assert s == n;
      NoExtensionSplits(n);
    } else {
      assert Sep !in s by {
        forall j | 0 <= j < |s| ensures s[j] != Sep { assert s[j] == n[j]; }
      }
      ExtensionSplits(s, e);
    }
  }

  lemma SuffixChars()
    ensures Sep !in Suffix && ExtSep !in Suffix && |Suffix| == 11 && Suffix[0] == '_'
  {
  }

  /** Appending characters other than `c` does not move the last `c`. */
  lemma {:induction false} RFindAppendAbsent(a: string, b: string, c: char)
    requires c !in b
    ensures RFind(a + b, c) == RFind(a, c)
  {
    if b != [] {
      var ab := a + b;
      assert ab[..|ab| - 1] == a + b[..|b| - 1];
      assert ab[|ab| - 1] == b[|b| - 1];
      RFindAppendAbsent(a, b[..|b| - 1], c);
    } else {
      assert a + b == a;
    }
  }

  lemma NoExtensionSplits(n: string)
    requires Sep !in n && SplitExt(n).1 == []
    ensures SplitExt(n + Suffix) == (n + Suffix, [])
  {
    var m := n + Suffix;
    SuffixChars();
    RFindAppendAbsent(n, Suffix, Sep);
    RFindAppendAbsent(n, Suffix, ExtSep);
    RFindUnique(n, Sep, -1);
    var d := RFind(n, ExtSep);
    if d >= 0 {
      assert m[0..d] == n[0..d];
    }
  }

  lemma ExtensionSplits(s: string, e: string)
    requires Sep !in s && Sep !in e
    requires e != [] && e[0] == ExtSep && ExtSep !in e[1..]
    ensures SplitExt(s + Suffix + e) == (s + Suffix, e)
  {
    var m := s + Suffix + e;
    var k := |s| + |Suffix|;
    SuffixChars();
    assert Sep !in m by {
      forall j | 0 <= j < |m| ensures m[j] != Sep {
        if j < |s| { assert m[j] == s[j]; }
        else if j < k { assert m[j] == Suffix[j - |s|]; assert Suffix[j - |s|] in Suffix; }
        else { assert m[j] == e[j - k]; }
      }
    }
    assert m[k] == e[0];
    forall j | k < j < |m| ensures m[j] != ExtSep {
      assert m[j] == e[j - k] == e[1..][j - k - 1];
    }
    assert m[0..k][|s|] == '_';
    assert m[..k] == s + Suffix;
    assert m[k..] == e;
    SplitExtAt(m, k);
  }

  /** The file part of a joined path is the component that was appended. */
  lemma BasenameOfJoin(d: string, n: string)
    requires Sep !in n
    ensures Basename(Join(d, n)) == n
  {
    var j := Join(d, n);
    if d == [] {
      RFindUnique(j, Sep, -1);
    } else if d[|d| - 1] == Sep {
      assert j == d + n;
      forall i | |d| - 1 < i < |j| ensures j[i] != Sep { assert j[i] == n[i - |d|]; }
      RFindUnique(j, Sep, |d| - 1);
    } else {
      assert j == d + [Sep] + n;
      forall i | |d| < i < |j| ensures j[i] != Sep { assert j[i] == n[i - |d| - 1]; }
      RFindUnique(j, Sep, |d|);
    }
  }

  lemma BasenameOfOutput(p: string)
    ensures Basename(OutputPath(p)) == OutputName(p)
  {
    OutputNameHasNoSep(p);
    BasenameOfJoin(Dirname(p), OutputName(p));
  }

  /** The output lands in the directory of the input. */
  lemma DirnameOfOutput(p: string)
    ensures Dirname(OutputPath(p)) == Dirname(p)
  {
    OutputNameHasNoSep(p);
    DirnameOfJoin(Dirname(p), OutputName(p));
  }

  /** Joining a component to a directory as `Dirname` returns it gives that directory back. */
  lemma DirnameOfJoin(d: string, n: string)
    requires Sep !in n
    requires d == [] || AllSlashes(d) || d[|d| - 1] != Sep
    ensures Dirname(Join(d, n)) == d
  {
    var o := Join(d, n);
    if d == [] {
      RFindUnique(o, Sep, -1);
    } else if d[|d| - 1] == Sep {
      assert o == d + n;
      forall i | |d| - 1 < i < |o| ensures o[i] != Sep { assert o[i] == n[i - |d|]; }
      RFindUnique(o, Sep, |d| - 1);
      assert o[..|d|] == d;
    } else {
      assert o == d + [Sep] + n;
      forall i | |d| < i < |o| ensures o[i] != Sep { assert o[i] == n[i - |d| - 1]; }
      RFindUnique(o, Sep, |d|);
      var head := o[..|d| + 1];
      assert head == d + [Sep];
      assert !AllSlashes(head) by { assert head[|d| - 1] != Sep; }
      assert head[..|head| - 1] == d;
      assert RStripSlashes(head) == RStripSlashes(d) == d;
    }
  }

  /** Two inputs are written to the same output exactly when they have the same
      directory and the same file name; so a repeated run overwrites its earlier output,
      and so do inputs that only differ in redundant separators. */
  lemma OutputPathCollision(a: string, b: string)
    ensures OutputPath(a) == OutputPath(b) <==> Dirname(a) == Dirname(b) && Basename(a) == Basename(b)
  {
    if OutputPath(a) == OutputPath(b) {
      DirnameOfOutput(a);
      DirnameOfOutput(b);
      BasenameOfOutput(a);
      BasenameOfOutput(b);
      OutputNameSplits(a);
      OutputNameSplits(b);
      var sa, ea := SplitExt(Basename(a)).0, SplitExt(Basename(a)).1;
      var sb, eb := SplitExt(Basename(b)).0, SplitExt(Basename(b)).1;
      assert sa + Suffix == sb + Suffix && ea == eb;
      assert |sa| == |sb|;
      assert sa == (sa + Suffix)[..|sa|] == (sb + Suffix)[..|sb|] == sb;
    }
  }

  /** The output never replaces the input file itself. */
  lemma OutputIsNotInput(p: string)
    ensures OutputPath(p) != p
  {
    BasenameOfOutput(p);
    OutputNameHasNoSep(p);
  }
}
