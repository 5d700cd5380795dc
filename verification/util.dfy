/**
 The helpers of ign-converter's util package: the error kinds the converter
 reports, the search for a config-defined link above a path, the conversions
 between plain values and optional (pointer) values, and the allocator that
 gives every legacy filesystem a name and a mount path.
 */
module Util {
  import opened Wrappers
  import opened Strconv

  /** The converter's error kinds, each carrying the values its message names. */
  datatype ConvError =
    | NoFilesystem(name: string)                          // filesystem referenced without a mount path
    | DuplicateInode(oldInode: string, newInode: string)  // first and second occurrence of one path
    | UsesOwnLink(linkPath: string, name: string)         // `name` lies beneath the config's link `linkPath`
    | DuplicateUnit(name: string)
    | DuplicateDropin(unit: string, name: string)

  // ---------------------------------------------------------------------------
  // Links

  /** Go's strings.HasPrefix. */
  predicate HasPrefix(s: string, prefix: string) {
    |prefix| <= |s| && s[..|prefix|] == prefix
  }

  /** Go's strings.HasSuffix. */
  predicate HasSuffix(s: string, suffix: string) {
    |suffix| <= |s| && s[|s| - |suffix|..] == suffix
  }

  /** The link path seen as a directory: with exactly the one trailing "/" it needs. */
  function LinkDir(l: string): string {
    if HasSuffix(l, "/") then l else l + "/"
  }

  /** `path` lies strictly beneath the link `l`. */
  predicate UsesLink(path: string, l: string) {
    HasPrefix(path, LinkDir(l)) && path != l
  }

  /**
   The first link of `links` that `path` lies beneath, or "" when there is none.
   A link that is itself "" is reported as "", like the absence of a link.
   */
  function FirstLinkUsed(links: seq<string>, path: string): (r: string)
    ensures r == "" || r in links
    ensures r != "" ==> UsesLink(path, r)
    decreases |links|
  {
    if links == [] then ""
    else if UsesLink(path, links[0]) then links[0]
    else FirstLinkUsed(links[1..], path)
  }

  /** The link reported is the first one in list order that `path` lies beneath. */
  lemma {:induction false} FirstLinkUsedIsFirst(links: seq<string>, path: string, i: nat)
    requires i < |links| && UsesLink(path, links[i])
    requires forall j :: 0 <= j < i ==> !UsesLink(path, links[j])
    ensures FirstLinkUsed(links, path) == links[i]
    decreases i
  {
    if i > 0 {
      assert !UsesLink(path, links[0]);
      forall j | 0 <= j < i - 1
        ensures !UsesLink(path, links[1..][j])
      {
        assert links[1..][j] == links[j + 1];
      }
      FirstLinkUsedIsFirst(links[1..], path, i - 1);
    }
  }

  /** When `path` lies beneath none of the links, "" is reported; without a link "", only then. */
  lemma {:induction false} FirstLinkUsedNone(links: seq<string>, path: string)
    ensures (forall i :: 0 <= i < |links| ==> !UsesLink(path, links[i])) ==> FirstLinkUsed(links, path) == ""
    ensures "" !in links ==>
              (FirstLinkUsed(links, path) == "" <==> forall i :: 0 <= i < |links| ==> !UsesLink(path, links[i]))
    decreases |links|
  {
    if links != [] {
      FirstLinkUsedNone(links[1..], path);
      assert forall i :: 1 <= i < |links| ==> links[i] == links[1..][i - 1];
    }
  }

  method CheckPathUsesLink(links: seq<string>, path: string) returns (r: string)
    ensures r == FirstLinkUsed(links, path)
  {
    for i := 0 to |links|
      invariant FirstLinkUsed(links[i..], path) == FirstLinkUsed(links, path)
    {
      var l := links[i];
      var linkdir := l;
      if !HasSuffix(l, "/") {
        linkdir := linkdir + "/";
      }
      if HasPrefix(path, linkdir) && path != l {
        return l;
      }
      assert links[i..][1..] == links[i + 1..];
    }
    assert links[|links|..] == [];
    return "";
  }

  /** A path nested below the link's directory uses the link. */
  lemma NestedPathUsesLink(l: string, rest: string)
    requires rest != ""
    ensures UsesLink(LinkDir(l) + rest, l)
  {
    var d := LinkDir(l);
    assert (d + rest)[..|d|] == d;
    assert |d + rest| > |l|;
  }

  /**
   A path that merely extends the link's name without a separator does not
   use the link ("/etc/foobar" is not beneath "/etc/foo").
   */
  lemma SiblingPathDoesNotUseLink(l: string, path: string)
    requires !HasSuffix(l, "/")
    requires HasPrefix(path, l) && |path| > |l| && path[|l|] != '/'
    ensures !UsesLink(path, l)
  {
    assert LinkDir(l) == l + "/";
    assert (l + "/")[|l|] == '/';
    assert |path| >= |l| + 1 && path[..|l| + 1][|l|] == path[|l|];
  }

  /** The examples of a link at /etc/foo. */
  lemma LinkExamples()
    ensures FirstLinkUsed(["/etc/foo"], "/etc/foo/bar") == "/etc/foo"
    ensures FirstLinkUsed(["/etc/foo"], "/etc/foo") == ""
    ensures FirstLinkUsed(["/etc/foo"], "/etc/foobar") == ""
    ensures FirstLinkUsed(["/etc/foo/"], "/etc/foo/bar") == "/etc/foo/"
  {
    NestedPathUsesLink("/etc/foo", "bar");
    assert LinkDir("/etc/foo") + "bar" == "/etc/foo/bar";
    SiblingPathDoesNotUseLink("/etc/foo", "/etc/foobar");
    NestedPathUsesLink("/etc/foo/", "bar");
  }

  // ---------------------------------------------------------------------------
  // Pointer helpers: a Go pointer is an Option, nil is None.

  function StrP(s: string): (p: Option<string>)
    ensures p == None <==> s == ""
    ensures StrV(p) == s
  {
    if s == "" then None else Some(s)
  }

  function StrPStrict(s: string): (p: Option<string>)
    ensures p != None && StrV(p) == s
  {
    Some(s)
  }

  function BoolP(b: bool): (p: Option<bool>)
    ensures p == None <==> !b
    ensures BoolV(p) == b
  {
    if !b then None else Some(b)
  }

  function BoolPStrict(b: bool): (p: Option<bool>)
    ensures p != None && BoolV(p) == b
  {
    Some(b)
  }

  function IntP(i: int): (p: Option<int>)
    ensures p == None <==> i == 0
    ensures IntV(p) == i
  {
    if i == 0 then None else Some(i)
  }

  /** The value behind a pointer, with nil read as the zero value. */
  function StrV(p: Option<string>): (v: string)
    ensures p == None ==> v == ""
    ensures p != None ==> v == p.value
  {
    if p == None then "" else p.value
  }

  function BoolV(p: Option<bool>): (v: bool)
    ensures p == None ==> !v
    ensures p != None ==> v == p.value
  {
    if p == None then false else p.value
  }

  function IntV(p: Option<int>): (v: int)
    ensures p == None ==> v == 0
    ensures p != None ==> v == p.value
  {
    if p == None then 0 else p.value
  }

  /** Going from a pointer to a value and back loses only a pointer to the zero value. */
  lemma PointerRoundTrips(ps: Option<string>, pb: Option<bool>, pi: Option<int>)
    ensures StrP(StrV(ps)) == ps <==> ps != Some("")
    ensures BoolP(BoolV(pb)) == pb <==> pb != Some(false)
    ensures IntP(IntV(pi)) == pi <==> pi != Some(0)
  {
  }

  // ---------------------------------------------------------------------------
  // Filesystem name and path allocation

  const OemName: string := "oem"
  const OemPath: string := "/usr/share/oem"

  /** The name given to the n-th unnamed filesystem. */
  function GeneratedName(n: nat): string {
    "ignition" + Decimal(n)
  }

  /** The mount path given to a new filesystem `name` when the suffix counter reads n. */
  function TmpPath(name: string, n: nat): string {
    "/tmp/" + name + "-ign" + Decimal(n)
  }

  /** The two counters and the name-to-path map that FSGeneration reads and updates. */
  datatype AllocState = AllocState(generated: nat, suffix: nat, fsMap: map<string, string>)

  datatype Resolved = Resolved(name: string, state: AllocState)

  /** One FSGeneration call, as a function of the state before it. */
  function Resolve(name: string, s: AllocState): (r: Resolved)
    ensures r.name != ""
    ensures name != "" ==> r.name == name && r.state.generated == s.generated
    ensures name == "" ==> r.name == GeneratedName(s.generated + 1) && r.state.generated == s.generated + 1
    ensures r.state.fsMap.Keys == s.fsMap.Keys + {r.name}
    ensures forall k :: k in s.fsMap ==> r.state.fsMap[k] == s.fsMap[k]
    ensures r.name in s.fsMap ==> r.state.suffix == s.suffix
    ensures r.name !in s.fsMap ==>
              r.state.suffix == s.suffix + 1 &&
              r.state.fsMap[r.name] == if r.name == OemName then OemPath else TmpPath(r.name, s.suffix + 1)
  {
    var n := if name == "" then GeneratedName(s.generated + 1) else name;
    var g := if name == "" then s.generated + 1 else s.generated;
    if n in s.fsMap then
      Resolved(n, s.(generated := g))
    else
      var path := if n == OemName then OemPath else TmpPath(n, s.suffix + 1);
      Resolved(n, AllocState(g, s.suffix + 1, s.fsMap[n := path]))
  }

  /** Resolving the returned name again changes nothing: same name, same path, same counters. */
  lemma ResolveIdempotent(name: string, s: AllocState)
    ensures Resolve(Resolve(name, s).name, Resolve(name, s).state) == Resolve(name, s)
  {
  }

  /** A name that already has a mount path is returned as is, and nothing changes. */
  lemma ResolveKnownName(name: string, s: AllocState)
    requires name != "" && name in s.fsMap
    ensures Resolve(name, s) == Resolved(name, s)
  {
  }

  /** Successive FSGeneration calls, one per name, in order. */
  function ResolveAll(names: seq<string>, s: AllocState): (r: (seq<string>, AllocState))
    ensures |r.0| == |names|
    ensures s.generated <= r.1.generated && s.suffix <= r.1.suffix
    ensures forall k :: k in s.fsMap ==> k in r.1.fsMap && r.1.fsMap[k] == s.fsMap[k]
    ensures forall i :: 0 <= i < |names| ==> r.0[i] in r.1.fsMap
    decreases |names|
  {
    if names == [] then ([], s)
    else
      var first := Resolve(names[0], s);
      var rest := ResolveAll(names[1..], first.state);
      ([first.name] + rest.0, rest.1)
  }

  /** "oem", once present, is mounted at /usr/share/oem. */
  ghost predicate OemMounted(m: map<string, string>) {
    OemName in m ==> m[OemName] == OemPath
  }

  /** No sequence of FSGeneration calls mounts "oem" anywhere else. */
  lemma {:induction false} OemAlwaysMounted(names: seq<string>, s: AllocState)
    requires OemMounted(s.fsMap)
    ensures OemMounted(ResolveAll(names, s).1.fsMap)
    decreases |names|
  {
    if names != [] {
      OemAlwaysMounted(names[1..], Resolve(names[0], s).state);
    }
  }

  /** Length of the run of digits that starts `w`. */
  function DigitRun(w: string): (n: nat)
    ensures n <= |w| && AllDigits(w[..n])
    decreases |w|
  {
    if w == [] || !IsDigit(w[0]) then 0
    else
      var n := 1 + DigitRun(w[1..]);
      assert forall i :: 1 <= i < n ==> w[..n][i] == w[1..][..n - 1][i - 1];
      n
  }

  /** A run of digits followed by a non-digit is recovered from the whole string. */
  lemma {:induction false} DigitRunOf(u: string, s: string)
    requires AllDigits(u) && |s| > 0 && !IsDigit(s[0])
    ensures DigitRun(u + s) == |u| && (u + s)[..|u|] == u
    decreases |u|
  {
    if u == [] {
      assert (u + s)[0] == s[0];
    } else {
      assert (u + s)[1..] == u[1..] + s;
      DigitRunOf(u[1..], s);
    }
  }

  /** The counter value that a generated name was built from. */
  function GeneratedIndex(name: string): nat
    requires |name| >= 8
  {
    var digits := name[8..][..DigitRun(name[8..])];
    ParseDecimal(digits)
  }

  lemma GeneratedIndexOfName(n: nat)
    ensures |GeneratedName(n)| > |OemName|
    ensures GeneratedIndex(GeneratedName(n)) == n
  {
    var name := GeneratedName(n);
    assert name[8..] == Decimal(n) + [];
    DigitRunOf(Decimal(n), ['/']);
    assert Decimal(n) + ['/'] == Decimal(n) + "/";
    ParseDecimalOfDecimal(n);
    assert DigitRun(name[8..]) == |Decimal(n)| by {
      assert name[8..] == Decimal(n);
      DigitRunAll(Decimal(n));
    }
  }

  lemma {:induction false} DigitRunAll(u: string)
    requires AllDigits(u)
    ensures DigitRun(u) == |u|
    decreases |u|
  {
    if u != [] {
      DigitRunAll(u[1..]);
    }
  }

  lemma GeneratedNameInjective(a: nat, b: nat)
    ensures GeneratedName(a) == GeneratedName(b) <==> a == b
  {
    GeneratedIndexOfName(a);
    GeneratedIndexOfName(b);
  }

  /** The name counter of the generated name a /tmp mount path was built from. */
  function GeneratedPathIndex(path: string): nat
    requires |path| >= 13
  {
    var digits := path[13..][..DigitRun(path[13..])];
    ParseDecimal(digits)
  }

  /** The name counter can be read back from a generated name's /tmp path, whatever the suffix. */
  lemma GeneratedPathIndexOf(a: nat, x: nat)
    ensures |TmpPath(GeneratedName(a), x)| >= 13
    ensures GeneratedPathIndex(TmpPath(GeneratedName(a), x)) == a
  {
    var path := TmpPath(GeneratedName(a), x);
    var s := "-ign" + Decimal(x);
    assert path == "/tmp/ignition" + (Decimal(a) + s);
    assert path[13..] == Decimal(a) + s;
    DigitRunOf(Decimal(a), s);
    ParseDecimalOfDecimal(a);
  }

  /** Generated names with different name counters get different /tmp paths, whatever the suffixes. */
  lemma GeneratedPathsDistinct(a: nat, b: nat, x: nat, y: nat)
    requires a != b
    ensures TmpPath(GeneratedName(a), x) != TmpPath(GeneratedName(b), y)
  {
    GeneratedPathIndexOf(a, x);
    GeneratedPathIndexOf(b, y);
  }

  /** Length of the run of digits that ends `w`. */
  function TrailingDigitRun(w: string): (n: nat)
    ensures n <= |w|
    decreases |w|
  {
    if w != [] && IsDigit(w[|w| - 1]) then 1 + TrailingDigitRun(w[..|w| - 1]) else 0
  }

  lemma {:induction false} TrailingDigitRunOf(u: string, d: string)
    requires u != [] && !IsDigit(u[|u| - 1]) && AllDigits(d)
    ensures TrailingDigitRun(u + d) == |d|
    decreases |d|
  {
    var w := u + d;
    if d == [] {
      assert w == u;
    } else {
      assert w[..|w| - 1] == u + d[..|d| - 1];
      assert w[|w| - 1] == d[|d| - 1];
      TrailingDigitRunOf(u, d[..|d| - 1]);
    }
  }

  /** A /tmp mount path determines both the name and the suffix it was built from. */
  lemma TmpPathInjective(n1: string, j1: nat, n2: string, j2: nat)
    ensures TmpPath(n1, j1) == TmpPath(n2, j2) ==> n1 == n2 && j1 == j2
  {
    var u1, u2 := "/tmp/" + n1 + "-ign", "/tmp/" + n2 + "-ign";
    var d1, d2 := Decimal(j1), Decimal(j2);
    assert u1[|u1| - 1] == 'n' && u2[|u2| - 1] == 'n';
    TrailingDigitRunOf(u1, d1);
    TrailingDigitRunOf(u2, d2);
    if TmpPath(n1, j1) == TmpPath(n2, j2) {
      var p := TmpPath(n1, j1);
      assert p == u1 + d1 && p == u2 + d2;
      assert |d1| == |d2|;
      assert d1 == p[|p| - |d1|..] == d2;
      DecimalInjective(j1, j2);
      assert u1 == p[..|p| - |d1|] == u2;
      assert n1 == u1[5..|u1| - 4] && n2 == u2[5..|u2| - 4];
    }
  }

  /** The oem mount point is never a /tmp mount path. */
  lemma OemPathNotTmp(n: string, j: nat)
    ensures OemPath != TmpPath(n, j)
  {
    assert OemPath[1] == 'u' && TmpPath(n, j)[1] == 't';
  }

  /** Resolving one unnamed filesystem when none of the names still to be generated is taken. */
  lemma ResolveUnnamedStep(s: AllocState)
    requires forall j: nat :: j > s.generated ==> GeneratedName(j) !in s.fsMap
    ensures var r := Resolve("", s);
      && r.name == GeneratedName(s.generated + 1) && r.name !in s.fsMap
      && r.state.generated == s.generated + 1 && r.state.suffix == s.suffix + 1
      && r.state.fsMap == s.fsMap[r.name := TmpPath(r.name, s.suffix + 1)]
      && forall j: nat :: j > r.state.generated ==> GeneratedName(j) !in r.state.fsMap
  {
    var g1 := s.generated + 1;
    GeneratedIndexOfName(g1);
    forall j: nat | j > g1
      ensures GeneratedName(j) != GeneratedName(g1)
    {
      GeneratedNameInjective(j, g1);
    }
  }

  /** What resolving `n` unnamed filesystems from `s` produces (see UnnamedResolutions). */
  ghost predicate UnnamedOutcome(s: AllocState, n: nat, out: seq<string>, t: AllocState) {
    && |out| == n
    && t.generated == s.generated + n && t.suffix == s.suffix + n
    && forall i :: 0 <= i < n ==>
         out[i] == GeneratedName(s.generated + i + 1) && out[i] !in s.fsMap &&
         out[i] in t.fsMap && t.fsMap[out[i]] == TmpPath(out[i], s.suffix + i + 1)
  }

  /**
   Resolving unnamed filesystems one after another, from a map that holds none
   of the names still to be generated, gives the i-th one the name ignition<g+i+1>
   and the path /tmp/ignition<g+i+1>-ign<k+i+1>, and bumps both counters once per call.
   */
  lemma {:induction false} UnnamedResolutions(names: seq<string>, s: AllocState)
    requires forall i :: 0 <= i < |names| ==> names[i] == ""
    requires forall j: nat :: j > s.generated ==> GeneratedName(j) !in s.fsMap
    ensures UnnamedOutcome(s, |names|, ResolveAll(names, s).0, ResolveAll(names, s).1)
    decreases |names|
  {
    if names != [] {
      var first := Resolve("", s);
      ResolveUnnamedStep(s);
      UnnamedResolutions(names[1..], first.state);
      var rest := ResolveAll(names[1..], first.state);
      assert ResolveAll(names, s) == ([first.name] + rest.0, rest.1);
      OutcomeCons(s, first.name, first.state, |names| - 1, rest.0, rest.1);
    }
  }

  /** Extending an outcome by the unnamed filesystem resolved before it. */
  lemma OutcomeCons(s: AllocState, name: string, mid: AllocState, n: nat, rest: seq<string>, t: AllocState)
    requires name == GeneratedName(s.generated + 1) && name !in s.fsMap
    requires mid.generated == s.generated + 1 && mid.suffix == s.suffix + 1
    requires mid.fsMap == s.fsMap[name := TmpPath(name, s.suffix + 1)]
    requires UnnamedOutcome(mid, n, rest, t)
    requires name in t.fsMap && t.fsMap[name] == mid.fsMap[name]
    ensures UnnamedOutcome(s, n + 1, [name] + rest, t)
  {
    var out := [name] + rest;
    forall i | 0 <= i < n + 1
      ensures out[i] == GeneratedName(s.generated + i + 1) && out[i] !in s.fsMap
      ensures out[i] in t.fsMap && t.fsMap[out[i]] == TmpPath(out[i], s.suffix + i + 1)
    {
      if i == 0 {
        assert out[i] == name;
      } else {
        var k := i - 1;
        OutcomeAt(mid, n, rest, t, k);
        assert out[i] == rest[k] && mid.generated + k + 1 == s.generated + i + 1;
        assert rest[k] !in s.fsMap by {
          assert s.fsMap.Keys <= mid.fsMap.Keys;
        }
      }
    }
  }

  /** One position of an outcome, taken out of the predicate. */
  lemma OutcomeAt(s: AllocState, n: nat, out: seq<string>, t: AllocState, k: nat)
    requires UnnamedOutcome(s, n, out, t) && k < n
    ensures out[k] == GeneratedName(s.generated + k + 1) && out[k] !in s.fsMap
    ensures out[k] in t.fsMap && t.fsMap[out[k]] == TmpPath(out[k], s.suffix + k + 1)
  {
  }

  /** N unnamed filesystems resolved against an empty map get N distinct names and N distinct paths. */
  lemma UnnamedResolutionsDistinct(names: seq<string>, g: nat, k: nat)
    requires forall i :: 0 <= i < |names| ==> names[i] == ""
    ensures var r := ResolveAll(names, AllocState(g, k, map[]));
      forall i, j :: 0 <= i < j < |names| ==> r.0[i] != r.0[j] && r.1.fsMap[r.0[i]] != r.1.fsMap[r.0[j]]
  {
    var s := AllocState(g, k, map[]);
    UnnamedResolutions(names, s);
    var out, t := ResolveAll(names, s).0, ResolveAll(names, s).1;
    forall i, j | 0 <= i < j < |names|
      ensures out[i] != out[j] && t.fsMap[out[i]] != t.fsMap[out[j]]
    {
      OutcomeDistinct(s, |names|, out, t, i, j);
    }
  }

  lemma OutcomeDistinct(s: AllocState, n: nat, out: seq<string>, t: AllocState, i: nat, j: nat)
    requires UnnamedOutcome(s, n, out, t) && i < j < n
    ensures out[i] != out[j] && out[i] in t.fsMap && out[j] in t.fsMap
    ensures t.fsMap[out[i]] != t.fsMap[out[j]]
  {
    var a, b := s.generated + i + 1, s.generated + j + 1;
    var x, y := s.suffix + i + 1, s.suffix + j + 1;
    assert out[i] == GeneratedName(a) && out[i] in t.fsMap && t.fsMap[out[i]] == TmpPath(out[i], x);
    assert out[j] == GeneratedName(b) && out[j] in t.fsMap && t.fsMap[out[j]] == TmpPath(out[j], y);
    GeneratedNameInjective(a, b);
    GeneratedPathsDistinct(a, b, x, y);
  }

  /** `p` is a mount path FSGeneration can give a new key `k`. */
  ghost predicate PlacedAt(k: string, p: string) {
    (k == OemName && p == OemPath) || (k != OemName && exists j: nat :: p == TmpPath(k, j))
  }

  /** Two different keys are never given the same mount path. */
  lemma PlacedPathsDistinct(k1: string, p1: string, k2: string, p2: string)
    requires PlacedAt(k1, p1) && PlacedAt(k2, p2) && k1 != k2
    ensures p1 != p2
  {
    if k1 == OemName {
      var j2: nat :| p2 == TmpPath(k2, j2);
      OemPathNotTmp(k2, j2);
    } else if k2 == OemName {
      var j1: nat :| p1 == TmpPath(k1, j1);
      OemPathNotTmp(k1, j1);
    } else {
      var j1: nat :| p1 == TmpPath(k1, j1);
      var j2: nat :| p2 == TmpPath(k2, j2);
      TmpPathInjective(k1, j1, k2, j2);
    }
  }

  /** Every key a run of calls adds to the map is placed where FSGeneration places new keys. */
  lemma {:induction false} NewKeysPlaced(names: seq<string>, s: AllocState)
    ensures var t := ResolveAll(names, s).1;
      forall k :: k in t.fsMap && k !in s.fsMap ==> PlacedAt(k, t.fsMap[k])
    decreases |names|
  {
    if names != [] {
      var first := Resolve(names[0], s);
      var t := ResolveAll(names, s).1;
      assert t == ResolveAll(names[1..], first.state).1;
      NewKeysPlaced(names[1..], first.state);
      forall k | k in t.fsMap && k !in s.fsMap
        ensures PlacedAt(k, t.fsMap[k])
      {
        if k in first.state.fsMap {
          assert k == first.name && t.fsMap[k] == first.state.fsMap[k];
          if k != OemName {
            assert t.fsMap[k] == TmpPath(k, s.suffix + 1);
          }
        }
      }
    }
  }

  /**
   Whatever the names and the map to start from, the keys that a run of calls
   adds are given pairwise different mount paths.
   */
  lemma NewPathsDistinct(names: seq<string>, s: AllocState)
    ensures var t := ResolveAll(names, s).1;
      forall k1, k2 :: k1 in t.fsMap && k1 !in s.fsMap && k2 in t.fsMap && k2 !in s.fsMap && k1 != k2 ==>
        t.fsMap[k1] != t.fsMap[k2]
  {
    var t := ResolveAll(names, s).1;
    NewKeysPlaced(names, s);
    forall k1, k2 | k1 in t.fsMap && k1 !in s.fsMap && k2 in t.fsMap && k2 !in s.fsMap && k1 != k2
      ensures t.fsMap[k1] != t.fsMap[k2]
    {
      PlacedPathsDistinct(k1, t.fsMap[k1], k2, t.fsMap[k2]);
    }
  }

  /**
   A generated name is not checked against the names callers give: when
   ignition<g+1> is already a key, an unnamed call returns it and shares its path.
   */
  lemma GeneratedNameMayCollide(s: AllocState)
    requires GeneratedName(s.generated + 1) in s.fsMap
    ensures Resolve("", s) == Resolved(GeneratedName(s.generated + 1), s.(generated := s.generated + 1))
  {
  }

  /** A filesystem named "ignition1" by its config and an unnamed one end up with the same name and path. */
  lemma GeneratedNameCollisionExample()
    ensures var r := ResolveAll(["ignition1", ""], AllocState(0, 0, map[]));
      r.0 == ["ignition1", "ignition1"] && r.1.suffix == 1 && r.1.fsMap.Keys == {"ignition1"}
  {
    assert GeneratedName(1) == "ignition1";
    var s1 := Resolve("ignition1", AllocState(0, 0, map[])).state;
    GeneratedNameMayCollide(s1);
    assert ["ignition1", ""][1..] == [""];
  }

  /** The caller-owned name-to-path map; Go maps are shared by reference. */
  class FsMap {
    var entries: map<string, string>

    constructor (initial: map<string, string>)
      ensures entries == initial
    {
      entries := initial;
    }
  }

  /** The package-level counters generatedNameCounter and addedSuffixCounter. */
  class Counters {
    var generatedNameCounter: nat
    var addedSuffixCounter: nat

    constructor ()
      ensures generatedNameCounter == 0 && addedSuffixCounter == 0
    {
      generatedNameCounter, addedSuffixCounter := 0, 0;
    }

    function State(fsMap: FsMap): AllocState
      reads this, fsMap
    {
      AllocState(generatedNameCounter, addedSuffixCounter, fsMap.entries)
    }

    /**
     Gives `name` (or, when it is empty, a fresh ignition<N> name) a mount path
     in `fsMap` unless it already has one, and returns the name. Never returns an error.
     */
    method FSGeneration(name: string, fsMap: FsMap) returns (resolved: string, err: Option<ConvError>)
      modifies this, fsMap
      ensures err == None
      ensures Resolved(resolved, State(fsMap)) == Resolve(name, old(State(fsMap)))
      ensures resolved in fsMap.entries
      ensures old(generatedNameCounter) <= generatedNameCounter
      ensures old(addedSuffixCounter) <= addedSuffixCounter
    {
      var n := name;
      if |n| == 0 {
        generatedNameCounter := generatedNameCounter + 1;
        n := "ignition" + Decimal(generatedNameCounter);
      }
      if n !in fsMap.entries {
        addedSuffixCounter := addedSuffixCounter + 1;
        if n == "oem" {
          fsMap.entries := fsMap.entries[n := "/usr/share/oem"];
        } else {
          fsMap.entries := fsMap.entries[n := "/tmp/" + n + "-ign" + Decimal(addedSuffixCounter)];
        }
      }
      return n, None;
    }
  }

}
