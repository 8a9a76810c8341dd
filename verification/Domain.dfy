/** Relying party ids and host names: which ids a host may use. */
module Domain {
  import opened Bytes

  const DOT: byte := 46

  function LowerChar(c: byte): byte {
    if 65 <= c <= 90 then c + 32 else c
  }

  function Lower(s: bytes): (r: bytes)
    ensures |r| == |s|
  {
    seq(|s|, i requires 0 <= i < |s| => LowerChar(s[i]))
  }

  // ---------------------------------------------------------------- upper and lower case

  /** Two letters that differ in case only: one of 'A' to 'Z', and the same letter 32 above. */
  predicate SameLetter(a: byte, b: byte) {
    a == b || (65 <= a <= 90 && b == a + 32) || (65 <= b <= 90 && a == b + 32)
  }

  /** Two names that differ in the case of letters only. */
  predicate CaseVariant(s: bytes, t: bytes) {
    |s| == |t| && forall i :: 0 <= i < |s| ==> SameLetter(s[i], t[i])
  }

  predicate NoCapitals(s: bytes) {
    forall i :: 0 <= i < |s| ==> !(65 <= s[i] <= 90)
  }

  /** The lower-case name is the only case variant without capitals. */
  lemma {:induction false} LowerExactly(s: bytes, t: bytes)
    ensures Lower(s) == t <==> CaseVariant(s, t) && NoCapitals(t)
  {
    if CaseVariant(s, t) && NoCapitals(t) {
      forall i | 0 <= i < |s| ensures Lower(s)[i] == t[i] {
        assert SameLetter(s[i], t[i]);
      }
    }
  }

  /** Names are equal in lower case exactly when they are case variants of each other. */
  lemma {:induction false} EqualInLowerCase(s: bytes, t: bytes)
    ensures Lower(s) == Lower(t) <==> CaseVariant(s, t)
  {
    if Lower(s) == Lower(t) {
      forall i | 0 <= i < |s| ensures SameLetter(s[i], t[i]) {
        assert Lower(s)[i] == Lower(t)[i];
      }
    }
    if CaseVariant(s, t) {
      forall i | 0 <= i < |s| ensures Lower(s)[i] == Lower(t)[i] {
        assert SameLetter(s[i], t[i]);
      }
    }
  }

  // ---------------------------------------------------------------- labels

  /** The labels between the dots, which are characters 46; there is always at least one, possibly empty. */
  function Labels(s: bytes): (r: seq<bytes>)
    ensures r != []
  {
    if s == [] then [[]]
    else
      var rest := Labels(s[1..]);
      if s[0] == 46 then [[]] + rest else [[s[0]] + rest[0]] + rest[1..]
  }

  function Join(ls: seq<bytes>): bytes
    requires ls != []
  {
    if |ls| == 1 then ls[0] else ls[0] + [46] + Join(ls[1..])
  }

  lemma {:induction false} JoinPrefixed(c: byte, ls: seq<bytes>)
    requires ls != []
    ensures Join([[c] + ls[0]] + ls[1..]) == [c] + Join(ls)
  {
    var ms := [[c] + ls[0]] + ls[1..];
    assert ms[1..] == ls[1..];
    if |ls| > 1 {
      assert Join(ms) == [c] + (ls[0] + [DOT] + Join(ls[1..]));
    }
  }

  lemma {:induction false} JoinLabels(s: bytes)
    ensures Join(Labels(s)) == s
  {
    if s != [] {
      var rest := Labels(s[1..]);
      JoinLabels(s[1..]);
      assert s == [s[0]] + s[1..];
      if s[0] == DOT {
        assert ([[]] + rest)[1..] == rest;
        assert Join([[]] + rest) == [] + [DOT] + Join(rest);
      } else {
        JoinPrefixed(s[0], rest);
      }
    }
  }

  lemma {:induction false} LabelsConcat(x: bytes, y: bytes)
    ensures Labels(x + [DOT] + y) == Labels(x) + Labels(y)
  {
    var s := x + [DOT] + y;
    if x == [] {
      assert s[1..] == y;
    } else {
      assert s[1..] == x[1..] + [DOT] + y;
      LabelsConcat(x[1..], y);
    }
  }

  lemma {:induction false} JoinConcat(p: seq<bytes>, q: seq<bytes>)
    requires p != [] && q != []
    ensures Join(p + q) == Join(p) + [DOT] + Join(q)
  {
    assert (p + q)[1..] == p[1..] + q;
    if |p| > 1 {
      JoinConcat(p[1..], q);
    } else {
      assert p[1..] + q == q;
    }
  }

  /** `q` ends with all the labels of `p` and has at least one more before them. */
  predicate ProperSuffix(p: seq<bytes>, q: seq<bytes>) {
    |p| < |q| && q[|q| - |p|..] == p
  }

  function LowerAll(ls: seq<bytes>): (r: seq<bytes>)
    ensures |r| == |ls|
  {
    seq(|ls|, i requires 0 <= i < |ls| => Lower(ls[i]))
  }

  lemma {:induction false} LabelsInLowerCase(s: bytes)
    ensures Labels(Lower(s)) == LowerAll(Labels(s))
  {
    if s != [] {
      var rest := Labels(s[1..]);
      LabelsInLowerCase(s[1..]);
      assert Lower(s)[1..] == Lower(s[1..]);
      if s[0] != 46 {
        assert Lower([s[0]] + rest[0]) == [LowerChar(s[0])] + Lower(rest[0]);
      }
    }
  }

  /** `q` ends with case variants of all the labels of `p` and has at least one more label before them. */
  predicate LabelSuffix(p: seq<bytes>, q: seq<bytes>) {
    |p| < |q| && forall i :: 0 <= i < |p| ==> CaseVariant(p[i], q[|q| - |p| + i])
  }

  lemma {:induction false} SuffixInLowerCase(p: seq<bytes>, q: seq<bytes>)
    ensures ProperSuffix(LowerAll(p), LowerAll(q)) <==> LabelSuffix(p, q)
  {
    if |p| < |q| {
      var tail := LowerAll(q)[|q| - |p|..];
      forall i | 0 <= i < |p| ensures tail[i] == LowerAll(p)[i] <==> CaseVariant(p[i], q[|q| - |p| + i]) {
        EqualInLowerCase(p[i], q[|q| - |p| + i]);
      }
      assert tail == LowerAll(p) <==> forall i :: 0 <= i < |p| ==> tail[i] == LowerAll(p)[i];
    }
  }

  // ---------------------------------------------------------------- the test

  /** The last characters of `h` are `s`, with a dot before them. */
  predicate EndsWithDotted(h: bytes, s: bytes) {
    |s| < |h| && h[|h| - |s|..] == s && h[|h| - |s| - 1] == DOT
  }

  lemma {:induction false} DottedIsProperSuffix(h: bytes, s: bytes)
    ensures EndsWithDotted(h, s) <==> ProperSuffix(Labels(s), Labels(h))
  {
    if EndsWithDotted(h, s) {
      var x := h[..|h| - |s| - 1];
      assert h == x + [DOT] + s;
      LabelsConcat(x, s);
    }
    if ProperSuffix(Labels(s), Labels(h)) {
      var p := Labels(h)[..|Labels(h)| - |Labels(s)|];
      assert Labels(h) == p + Labels(s);
      JoinConcat(p, Labels(s));
      JoinLabels(h);
      JoinLabels(s);
    }
  }

  /** What the character-level test accepts. */
  predicate Accepts(host: bytes, suffix: bytes, isPublic: bytes -> bool) {
    && |suffix| <= |host| && suffix != []
    && (Lower(host) == Lower(suffix)
        || (!isPublic(Lower(suffix)) && EndsWithDotted(Lower(host), Lower(suffix))))
  }

  /**
    The test on characters is the test on labels, whatever the case of letters: equal names, or a suffix whose
    lower-case variant is not public and whose labels are the last labels of the host.
   */
  lemma {:induction false} AcceptsLabels(host: bytes, suffix: bytes, isPublic: bytes -> bool)
    ensures Accepts(host, suffix, isPublic) <==>
            && suffix != []
            && (CaseVariant(host, suffix)
                || (LabelSuffix(Labels(suffix), Labels(host))
                    && forall s :: CaseVariant(suffix, s) && NoCapitals(s) ==> !isPublic(s)))
  {
    EqualInLowerCase(host, suffix);
    LabelsInLowerCase(host);
    LabelsInLowerCase(suffix);
    SuffixInLowerCase(Labels(suffix), Labels(host));
    DottedIsProperSuffix(Lower(host), Lower(suffix));
    LowerExactly(suffix, Lower(suffix));
    forall s ensures CaseVariant(suffix, s) && NoCapitals(s) ==> s == Lower(suffix) {
      LowerExactly(suffix, s);
    }
    hide Lower, Labels, CaseVariant, NoCapitals, LabelSuffix, ProperSuffix;
  }

  /** The case of letters never matters. */
  lemma {:induction false} CaseDoesNotMatter(host: bytes, suffix: bytes, host2: bytes, suffix2: bytes, isPublic: bytes -> bool)
    requires CaseVariant(host, host2) && CaseVariant(suffix, suffix2)
    ensures Accepts(host, suffix, isPublic) <==> Accepts(host2, suffix2, isPublic)
  {
    EqualInLowerCase(host, host2);
    EqualInLowerCase(suffix, suffix2);
  }

  /** Of two equally long names one suits the other exactly when they are case variants. */
  lemma {:induction false} EquallyLong(host: bytes, suffix: bytes, isPublic: bytes -> bool)
    requires |host| == |suffix| && suffix != []
    ensures Accepts(host, suffix, isPublic) <==> CaseVariant(host, suffix)
  {
    EqualInLowerCase(host, suffix);
  }

  /** `is_equal_or_registrable_domain_suffix`; a missing name is a null pointer. */
  method IsEqualOrRegistrableDomainSuffix(host: Option<bytes>, suffix: Option<bytes>, isPublic: bytes -> bool)
    returns (ok: bool)
    ensures ok == (host.Some? && suffix.Some? && Accepts(host.value, suffix.value, isPublic))
  {
    if host.None? || suffix.None? { return false; }
    var h, s := host.value, suffix.value;
    if |s| > |h| || |h| == 0 || |s| == 0 { return false; }
    var hostCopy, suffixCopy := new byte[|h|], new byte[|s|];
    for i := 0 to |h|
      invariant forall k :: 0 <= k < i ==> hostCopy[k] == LowerChar(h[k])
    {
      hostCopy[i] := LowerChar(h[i]);
    }
    for i := 0 to |s|
      invariant forall k :: 0 <= k < i ==> suffixCopy[k] == LowerChar(s[k])
      invariant hostCopy[..] == Lower(h)
    {
      suffixCopy[i] := LowerChar(s[i]);
    }
    assert suffixCopy[..] == Lower(s);
    if hostCopy[..] == suffixCopy[..] { return true; }
    if isPublic(suffixCopy[..]) { return false; }
    // Names of equal length differ here, so the comparison fails before the character in front is looked at.
    assert |h| == |s| ==> hostCopy[|h| - |s|..] == hostCopy[..];
    return hostCopy[|h| - |s|..] == suffixCopy[..] && hostCopy[|h| - |s| - 1] == DOT;
  }
}
