/** Path strings: `std::filesystem::path::operator/`, and the sequence of names a path string stands for. */
module Paths {
  import opened Wire

  const SLASH: byte := 47
  const NUL: byte := 0

  type Name = bytes

  /** Names from the root of a tree downwards. */
  type Path = seq<Name>

  /** The directory itself, and the one above it. */
  const DOT: Name := [46]
  const DOTDOT: Name := [46, 46]

  predicate ValidName(n: Name) {
    n != [] && SLASH !in n
  }

  predicate ValidPath(p: Path) {
    forall i | 0 <= i < |p| :: ValidName(p[i])
  }

  predicate IsDots(n: Name) {
    n == DOT || n == DOTDOT
  }

  /** A name a directory entry can have. */
  predicate EntryName(n: Name) {
    ValidName(n) && NUL !in n && !IsDots(n)
  }

  predicate EntryPath(p: Path) {
    forall i | 0 <= i < |p| :: EntryName(p[i])
  }

  function Parent(p: Path): Path
    requires p != []
  {
    p[..|p| - 1]
  }

  predicate Below(prefix: Path, p: Path) {
    |p| > |prefix| && p[..|prefix|] == prefix
  }

  /** `p / q`: an absolute `q` replaces `p`, otherwise one separator is put in between unless there is one already. */
  function Append(p: bytes, q: bytes): bytes {
    if q != [] && q[0] == SLASH then q
    else if p == [] || p[|p| - 1] == SLASH then p + q
    else p + [SLASH] + q
  }

  /** `base / p[0] / p[1] / ...` */
  function AppendAll(base: bytes, p: Path): bytes
    decreases |p|
  {
    if p == [] then base else AppendAll(Append(base, p[0]), p[1..])
  }

  lemma AppendOne(base: bytes, n: Name)
    ensures AppendAll(base, [n]) == Append(base, n)
  {
    assert [n][1..] == [];
  }

  function Join(p: Path): bytes {
    if p == [] then []
    else if |p| == 1 then p[0]
    else p[0] + [SLASH] + Join(p[1..])
  }

  function NameLength(s: bytes): (n: nat)
    ensures n <= |s| && SLASH !in s[..n] && (n < |s| ==> s[n] == SLASH)
    ensures s != [] && s[0] != SLASH ==> n > 0
  {
    if s == [] || s[0] == SLASH then 0 else 1 + NameLength(s[1..])
  }

  /** The names a path string walks through; repeated separators count once. */
  function Components(s: bytes): Path
    decreases |s|
  {
    if s == [] then []
    else if s[0] == SLASH then Components(s[1..])
    else [s[..NameLength(s)]] + Components(s[NameLength(s)..])
  }

  lemma {:induction false} NameLengthIs(s: bytes, n: nat)
    requires n <= |s| && SLASH !in s[..n] && (n < |s| ==> s[n] == SLASH)
    ensures NameLength(s) == n
  {
    if n > 0 {
      assert s[0] in s[..n];
      assert s[1..][..n - 1] == s[..n][1..];
      NameLengthIs(s[1..], n - 1);
    }
  }

  lemma {:induction false} SomeComponent(s: bytes)
    requires s != [] && s[|s| - 1] != SLASH
    ensures Components(s) != []
  {
    if s[0] == SLASH {
      SomeComponent(s[1..]);
    }
  }

  /** Cutting a path string at a separator cuts the path. */
  lemma {:induction false} ComponentsConcat(a: bytes, b: bytes)
    requires a == [] || a[|a| - 1] == SLASH || b == [] || b[0] == SLASH
    ensures Components(a + b) == Components(a) + Components(b)
    decreases |a|
  {
    if a == [] {
      assert a + b == b;
    } else if a[0] == SLASH {
      assert (a + b)[1..] == a[1..] + b;
      ComponentsConcat(a[1..], b);
    } else {
      var n := NameLength(a);
      assert (a + b)[..n] == a[..n] && (a + b)[n..] == a[n..] + b;
      NameLengthIs(a + b, n);
      ComponentsConcat(a[n..], b);
    }
  }

  lemma {:induction false} ComponentsOfName(n: Name)
    requires ValidName(n)
    ensures Components(n) == [n]
  {
    NameLengthIs(n, |n|);
    assert n[..|n|] == n && n[|n|..] == [];
  }

  lemma {:induction false} JoinIsNotAbsolute(p: Path)
    requires ValidPath(p)
    ensures p != [] ==> Join(p) != [] && Join(p)[0] != SLASH && Join(p)[|Join(p)| - 1] != SLASH
  {
    if |p| == 1 {
      assert p[0][0] in p[0] && p[0][|p[0]| - 1] in p[0];
    } else if |p| > 1 {
      assert p[0][0] in p[0];
      JoinIsNotAbsolute(p[1..]);
    }
  }

  /** The names can be read back from the string. */
  lemma {:induction false} ComponentsOfJoin(p: Path)
    requires ValidPath(p)
    ensures Components(Join(p)) == p
  {
    if |p| == 1 {
      ComponentsOfName(p[0]);
    } else if |p| > 1 {
      assert Join(p) == p[0] + ([SLASH] + Join(p[1..]));
      ComponentsConcat(p[0], [SLASH] + Join(p[1..]));
      ComponentsOfName(p[0]);
      assert ([SLASH] + Join(p[1..]))[1..] == Join(p[1..]);
      ComponentsOfJoin(p[1..]);
    }
  }

  /** Looking up `base / rel` walks through `base` and then through `rel`. */
  lemma ComponentsOfAppend(base: bytes, rel: bytes)
    requires rel != [] ==> rel[0] != SLASH
    ensures Components(Append(base, rel)) == Components(base) + Components(rel)
  {
    if base == [] || base[|base| - 1] == SLASH {
      ComponentsConcat(base, rel);
    } else {
      assert base + [SLASH] + rel == base + ([SLASH] + rel);
      ComponentsConcat(base, [SLASH] + rel);
      assert ([SLASH] + rel)[1..] == rel;
    }
  }

  // ---- Removing the base from the front of a path ----

  function StripSlashes(s: bytes): bytes {
    if s != [] && s[|s| - 1] == SLASH then StripSlashes(s[..|s| - 1]) else s
  }

  /** The number of characters in front of the part of a path that is relative to `base`. */
  function BaseLength(base: bytes): nat {
    if |base| > 0 then |base| + 1 else 0
  }

  function WithSeparator(base: bytes): bytes {
    if base == [] then [] else base + [SLASH]
  }

  lemma AppendName(base: bytes, n: Name)
    requires base != [] ==> base[|base| - 1] != SLASH
    requires ValidName(n)
    ensures Append(base, n) == WithSeparator(base) + n
    ensures Append(base, n) != [] && Append(base, n)[|Append(base, n)| - 1] != SLASH
  {
    assert n[0] in n && n[|n| - 1] in n;
  }

  lemma RegroupFour(a: bytes, b: bytes, c: bytes, d: bytes)
    ensures a + b + c + d == a + (b + c + d)
  {
  }

  lemma {:induction false} AppendAllIs(base: bytes, p: Path)
    requires base != [] ==> base[|base| - 1] != SLASH
    requires ValidPath(p) && p != []
    ensures AppendAll(base, p) == WithSeparator(base) + Join(p)
    decreases |p|
  {
    var next := Append(base, p[0]);
    AppendName(base, p[0]);
    if |p| == 1 {
      assert AppendAll(next, p[1..]) == next;
    } else {
      AppendAllIs(next, p[1..]);
      RegroupFour(WithSeparator(base), p[0], [SLASH], Join(p[1..]));
    }
  }

  /** Dropping the base and its separator leaves the path relative to the base, and appending that to the base gives the
      path again. */
  lemma StripThenAppend(base: bytes, p: Path)
    requires base != [] ==> base[|base| - 1] != SLASH
    requires ValidPath(p) && p != []
    ensures |AppendAll(base, p)| >= BaseLength(base)
    ensures AppendAll(base, p)[BaseLength(base)..] == Join(p)
    ensures Append(base, Join(p)) == AppendAll(base, p)
  {
    AppendAllIs(base, p);
    JoinIsNotAbsolute(p);
    assert BaseLength(base) == |WithSeparator(base)|;
  }

  lemma {:induction false} StripSlashesResult(s: bytes)
    ensures StripSlashes(s) <= s
    ensures StripSlashes(s) != [] ==> StripSlashes(s)[|StripSlashes(s)| - 1] != SLASH
    ensures forall i | |StripSlashes(s)| <= i < |s| :: s[i] == SLASH
    ensures Components(StripSlashes(s)) == Components(s)
  {
    if s != [] && s[|s| - 1] == SLASH {
      var t := s[..|s| - 1];
      StripSlashesResult(t);
      assert s == t + [SLASH];
      ComponentsConcat(t, [SLASH]);
      assert Components([SLASH]) == [];
    }
  }

  predicate IsAbsolute(s: bytes) {
    s != [] && s[0] == SLASH
  }

  /** Two path strings lead through the same names from the same directory, the root or the working directory. */
  predicate SameMeaning(s: bytes, t: bytes) {
    IsAbsolute(s) == IsAbsolute(t) && Components(s) == Components(t)
  }

  /** Stripping trailing separators keeps the meaning of a base, except that a base of nothing but separators, the root
      directory, becomes the empty path, the working directory. */
  lemma StrippedBaseMeansTheSame(s: bytes)
    ensures SameMeaning(StripSlashes(s), s) <==> (s == [] || exists i | 0 <= i < |s| :: s[i] != SLASH)
  {
    StripSlashesResult(s);
    var t := StripSlashes(s);
    if t == [] {
      assert forall i | 0 <= i < |s| :: s[i] == SLASH;
    } else {
      assert t[|t| - 1] == s[|t| - 1];
      assert t[0] == s[0];
    }
  }
}
