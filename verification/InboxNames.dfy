/** Names in the drop folder: which are acceptable, and how collisions are renamed. */
module InboxNames {
  import opened Numbers
  import opened Text
  import opened Paths
  import opened ShareTree

  const SIDECAR_SUFFIX := ".doclink.json"

  predicate EndsWith(s: string, suffix: string) {
    |s| >= |suffix| && s[|s| - |suffix|..] == suffix
  }

  predicate Reserved(c: char) {
    || c == '/' || c == '\\' || c == ':' || c == '*' || c == '?'
    || c == '\"' || c == '<' || c == '>' || c == '|' || c == '\0'
  }

  predicate Plain(s: string) {
    forall c :: c in s ==> !Reserved(c)
  }

  /** A single-component file name that cannot be hidden, aliased or mistaken
      for metadata. With no separator in it and no leading dot it is always one
      normal path component. */
  predicate ValidName(name: string) {
    && name != ""
    && name[0] != '.'
    && name[|name| - 1] != '.'
    && name == Trim(name)
    && !EndsWith(name, SIDECAR_SUFFIX)
    && Plain(name)
  }

  function Sidecar(name: string): string { name + SIDECAR_SUFFIX }

  function TempName(stored: string): string { "." + stored + ".part" }

  /** Position of the last dot, or -1. */
  function LastDot(name: string): (k: int)
    ensures -1 <= k < |name|
    ensures k >= 0 ==> name[k] == '.'
    ensures forall i :: k < i < |name| ==> name[i] != '.'
  {
    if name == [] then -1
    else if name[|name| - 1] == '.' then |name| - 1
    else LastDot(name[..|name| - 1])
  }

  /** The text before and after the number. */
  function Around(name: string): (string, string) {
    var k := LastDot(name);
    if k > 0 then (name[..k] + " (", ")." + name[k + 1..]) else (name + " (", ")")
  }

  /** `stem (n).ext`, or `name (n)` when there is no extension. */
  function Candidate(name: string, n: nat): string {
    Around(name).0 + Decimal(n) + Around(name).1
  }

  // ---- Facts ----

  /** The ten characters, written out. */
  lemma PlainIff(s: string)
    ensures Plain(s) <==>
            && '/' !in s && '\\' !in s && ':' !in s && '*' !in s && '?' !in s
            && '\"' !in s && '<' !in s && '>' !in s && '|' !in s && '\0' !in s
  {
  }

  /** Which names are acceptable: none of the ten characters, no dot and no blank at
      either end, not the metadata suffix. */
  lemma ValidIff(name: string)
    ensures ValidName(name) <==>
            && name != ""
            && '/' !in name && '\\' !in name && ':' !in name && '*' !in name && '?' !in name
            && '\"' !in name && '<' !in name && '>' !in name && '|' !in name && '\0' !in name
            && name[0] != '.' && !IsSpace(name[0])
            && name[|name| - 1] != '.' && !IsSpace(name[|name| - 1])
            && !(|name| >= 13 && name[|name| - 13..] == ".doclink.json")
  {
    PlainIff(name);
    TrimmedIff(name);
  }

  /** An acceptable name is one component: joined to any folder it is a direct child. */
  lemma ValidIsOneComponent(name: string, dir: string)
    requires ValidName(name)
    ensures RealName(name) && BaseName(Join(dir, name)) == name && name != "." && name != ".."
    ensures dir != "" ==> Within(Join(dir, name), dir)
    ensures forall a :: Within(Join(dir, name), a) ==> AtOrUnder(dir, a)
  {
    ValidIff(name);
    BaseNameOfJoin(dir, name);
    JoinInside(dir, name);
    forall a | Within(Join(dir, name), a) ensures AtOrUnder(dir, a) { InsideJoin(dir, name, a); }
  }

  lemma {:induction false} LastDotIs(name: string, k: nat)
    requires k < |name| && name[k] == '.' && forall i :: k < i < |name| ==> name[i] != '.'
    ensures LastDot(name) == k
  {
    if k < |name| - 1 { LastDotIs(name[..|name| - 1], k); }
  }

  /** The number goes before the extension. */
  lemma NumberedBeforeExtension(stem: string, ext: string, n: nat)
    requires stem != "" && '.' !in ext
    ensures Candidate(stem + "." + ext, n) == stem + " (" + Decimal(n) + ")." + ext
  {
    var name := stem + "." + ext;
    forall i | |stem| < i < |name| ensures name[i] != '.' { assert name[i] == ext[i - |stem| - 1]; }
    LastDotIs(name, |stem|);
    assert name[..|stem|] == stem && name[|stem| + 1..] == ext;
    assert stem + " (" + Decimal(n) + (")." + ext) == stem + " (" + Decimal(n) + ")." + ext;
  }

  /** Without an extension it goes to the end. */
  lemma NumberedAtEnd(name: string, n: nat)
    requires forall i :: 0 < i < |name| ==> name[i] != '.'
    ensures Candidate(name, n) == name + " (" + Decimal(n) + ")"
  {
  }

  lemma CandidatesDiffer(name: string, m: nat, n: nat)
    requires Candidate(name, m) == Candidate(name, n)
    ensures m == n
  {
    var (pre, post) := Around(name);
    var x := Candidate(name, m);
    assert Decimal(m) == x[|pre|..|x| - |post|];
    assert Decimal(n) == x[|pre|..|x| - |post|];
    DecimalIsInjective(m, n);
  }

  lemma CandidateIsNew(name: string, n: nat)
    ensures Candidate(name, n) != name
  {
    DecimalRoundTrip(n);
    assert |Candidate(name, n)| > |name|;
  }

  lemma DigitsArePlain(n: nat)
    ensures Plain(Decimal(n))
  {
    DecimalRoundTrip(n);
    forall c | c in Decimal(n) ensures !Reserved(c) { assert IsDigit(c, 10); }
  }

  lemma CandidateIsPlain(name: string, n: nat)
    requires Plain(name)
    ensures Plain(Candidate(name, n))
  {
    DigitsArePlain(n);
    var k := LastDot(name);
    var left, right := if k > 0 then name[..k] else name, if k > 0 then ")." + name[k + 1..] else ")";
    PlainConcat(left, " (");
    if k > 0 { PlainConcat(").", name[k + 1..]); }
    PlainConcat(left + " (", Decimal(n));
    PlainConcat(left + " (" + Decimal(n), right);
  }

  lemma PlainConcat(a: string, b: string)
    requires Plain(a) && Plain(b)
    ensures Plain(a + b)
  {
  }

  /** Characters of a name that ends in the reserved suffix. */
  lemma SuffixAt(x: string, i: nat)
    requires EndsWith(x, SIDECAR_SUFFIX) && i < 13
    ensures |x| >= 13 && x[|x| - 13 + i] == SIDECAR_SUFFIX[i]
  {
    assert x[|x| - 13..][i] == SIDECAR_SUFFIX[i];
  }

  lemma NoSidecarAtEnd(left: string)
    requires left != "" && left[|left| - 1] == ')'
    ensures !EndsWith(left, SIDECAR_SUFFIX)
  {
    if EndsWith(left, SIDECAR_SUFFIX) {
      SuffixAt(left, 12);
      assert false;
    }
  }

  lemma SuffixTail(x: string)
    requires EndsWith(x, SIDECAR_SUFFIX)
    ensures |x| >= 13 && forall i :: |x| - 4 <= i < |x| ==> x[i] != '.'
  {
    forall i | |x| - 4 <= i < |x| ensures x[i] != '.' { SuffixAt(x, i + 13 - |x|); }
  }

  /** The reserved suffix is ".doclink" and one more dotted part. */
  lemma NoSidecarAfter(left: string, ext: string)
    requires left != "" && left[|left| - 1] == ')' && '.' !in ext
    ensures !EndsWith(left + "." + ext, SIDECAR_SUFFIX)
  {
    var x := left + "." + ext;
    assert x[|left| - 1] == ')' && x[|left|] == '.';
    assert forall i :: |left| < i < |x| ==> x[i] in ext;
    if EndsWith(x, SIDECAR_SUFFIX) {
      SuffixTail(x);
      SuffixAt(x, 7);
      SuffixAt(x, 8);
      assert false;
    }
  }

  /** Renaming keeps names acceptable. */
  lemma CandidateIsValid(name: string, n: nat)
    requires ValidName(name)
    ensures ValidName(Candidate(name, n))
  {
    var k := LastDot(name);
    CandidateIsPlain(name, n);
    TrimmedIff(name);
    if k > 0 {
      var left, ext := name[..k] + " (" + Decimal(n) + ")", name[k + 1..];
      assert ext != "" && ext[|ext| - 1] == name[|name| - 1];
      ShapedIsValid(name, left, ext, Candidate(name, n));
    } else {
      assert Candidate(name, n) == name + " (" + Decimal(n) + ")";
      ShapedIsValid(name, Candidate(name, n), "", Candidate(name, n));
    }
  }

  lemma ShapedIsValid(name: string, left: string, ext: string, x: string)
    requires ValidName(name) && !IsSpace(name[0]) && !IsSpace(name[|name| - 1]) && Plain(x)
    requires left != "" && left[0] == name[0] && left[|left| - 1] == ')' && '.' !in ext
    requires ext == "" ==> x == left
    requires ext != "" ==> x == left + "." + ext && ext[|ext| - 1] == name[|name| - 1]
    ensures ValidName(x)
  {
    NoSidecarAtEnd(left);
    if ext != "" { NoSidecarAfter(left, ext); }
    assert x[0] == name[0];
    assert x[|x| - 1] == if ext == "" then ')' else name[|name| - 1];
    TrimmedIff(x);
  }

  /** Payloads, their sidecars and their temporary names never collide. */
  lemma NamesNeverCollide(a: string, b: string, p: string)
    requires ValidName(a) && ValidName(b) && ValidName(p)
    ensures Sidecar(a) != p && TempName(a) != p && Sidecar(a) != TempName(b)
    ensures (Sidecar(a) == Sidecar(b) ==> a == b) && (TempName(a) == TempName(b) ==> a == b)
  {
    assert Sidecar(a)[|a|..] == SIDECAR_SUFFIX;
    assert Sidecar(a)[0] == a[0] && TempName(b)[0] == '.' && TempName(a)[0] == '.';
    assert |Sidecar(b)| == |b| + |SIDECAR_SUFFIX| && |TempName(b)| == |b| + 6;
    assert Sidecar(a)[..|a|] == a && TempName(a)[1..|a| + 1] == a;
    assert Sidecar(b)[..|b|] == b && TempName(b)[1..|b| + 1] == b;
  }
}
