/** Service ports: the operator's repair of port names and its two port builders, and the
    API's validation of the same lists. */
module Ports {
  import opened Json
  import opened Text

  const MAX_NAME_LENGTH := 15
  const MAX_INT32 := 0x7fff_ffff

  // ---------- Alphabet ----------

  predicate IsLetter(c: char) { 'a' <= c <= 'z' }

  predicate IsAlphanumeric(c: char) { IsLetter(c) || IsDigit(c) }

  predicate IsNameChar(c: char) { IsAlphanumeric(c) || c == '-' }

  /** What Kubernetes accepts as a port name, leaving the letter rule aside. */
  predicate WellShaped(n: string)
  {
    1 <= |n| <= MAX_NAME_LENGTH &&
    (forall c | c in n :: IsNameChar(c)) &&
    IsAlphanumeric(n[0]) && IsAlphanumeric(n[|n| - 1])
  }

  predicate HasLetter(n: string) { exists c | c in n :: IsLetter(c) }

  // ---------- Repair ----------

  /** Lower-cases ASCII letters and replaces every other illegal character. */
  function CleanChar(c: char): (r: char)
    ensures IsNameChar(r)
  {
    if 'A' <= c <= 'Z' then (c as int - 'A' as int + 'a' as int) as char
    else if IsNameChar(c) then c
    else '-'
  }

  function Clean(name: string): (r: string)
    ensures |r| == |name| && forall c | c in r :: IsNameChar(c)
  {
    seq(|name|, i requires 0 <= i < |name| => CleanChar(name[i]))
  }

  /** strings.Trim(s, "-"). */
  function TrimDashes(s: string): (r: string)
    ensures |r| <= |s|
    ensures forall c | c in r :: c in s
    ensures r != "" ==> r[0] != '-' && r[|r| - 1] != '-'
    ensures s != "" && s[0] != '-' && s[|s| - 1] != '-' ==> r == s
  {
    if s != "" && s[0] == '-' then TrimDashes(s[1..])
    else if s != "" && s[|s| - 1] == '-' then TrimDashes(s[..|s| - 1])
    else s
  }

  function SanitizePortName(name: string, port: nat): string
    requires port <= MAX_INT32
  {
    var trimmed := TrimDashes(Clean(name));
    var n := if |trimmed| > MAX_NAME_LENGTH then TrimDashes(trimmed[..MAX_NAME_LENGTH]) else trimmed;
    if n == "" || !HasLetter(n) then
      var fallback := "p-" + Decimal(port);
      if |fallback| > MAX_NAME_LENGTH then fallback[..MAX_NAME_LENGTH] else fallback
    else n
  }

  lemma FallbackLength(port: nat)
    requires port <= MAX_INT32
    ensures |Decimal(port)| <= 10
  {
    assert PowerOfTen(10) == 10_000_000_000 by {
      assert PowerOfTen(5) == 100_000;
      assert PowerOfTen(10) == 100_000 * PowerOfTen(5);
    }
    DecimalLength(port, 10);
  }

  lemma SanitizedIsWellShaped(name: string, port: nat)
    requires port <= MAX_INT32
    ensures WellShaped(SanitizePortName(name, port)) && HasLetter(SanitizePortName(name, port))
  {
    hide TrimDashes, Clean, Decimal;
    var trimmed := TrimDashes(Clean(name));
    var n := if |trimmed| > MAX_NAME_LENGTH then TrimDashes(trimmed[..MAX_NAME_LENGTH]) else trimmed;
    assert forall c | c in n :: IsNameChar(c);
    assert n != "" ==> n[0] in n && n[|n| - 1] in n;
    if n == "" || !HasLetter(n) {
      FallbackLength(port);
      var fallback := "p-" + Decimal(port);
      assert fallback[0] == 'p' && fallback[|fallback| - 1] == Decimal(port)[|Decimal(port)| - 1];
      assert 'p' in fallback;
    }
  }

  /** Repair leaves alone every name that is already legal. */
  lemma SanitizeKeepsLegalNames(name: string, port: nat)
    requires port <= MAX_INT32 && WellShaped(name) && HasLetter(name)
    ensures SanitizePortName(name, port) == name
  {
    forall i | 0 <= i < |name| ensures Clean(name)[i] == name[i] {
      assert name[i] in name;
    }
    assert Clean(name) == name;
  }

  /** A letter or digit of either case; every other character only fills. */
  predicate IsPlainChar(c: char) { 'a' <= c <= 'z' || 'A' <= c <= 'Z' || '0' <= c <= '9' }

  predicate IsPlainLetter(c: char) { 'a' <= c <= 'z' || 'A' <= c <= 'Z' }

  /** Upper-case ASCII letters become lower-case ones, other letters and digits stay, and anything else
      becomes a hyphen. */
  predicate Folds(c: char, r: char)
  {
    if 'A' <= c <= 'Z' then r as int == c as int - 65 + 97
    else if IsPlainChar(c) then r == c
    else r == '-'
  }

  lemma CleanFolds(c: char)
    ensures Folds(c, CleanChar(c)) && (CleanChar(c) == '-' <==> !IsPlainChar(c)) && (IsLetter(CleanChar(c)) <==> IsPlainLetter(c))
  {}

  lemma {:induction false} TrimDashesIs(s: string) returns (i: nat, j: nat)
    ensures i <= j <= |s| && TrimDashes(s) == s[i..j]
    ensures forall k | 0 <= k < i || j <= k < |s| :: s[k] == '-'
    ensures i < j ==> s[i] != '-' && s[j - 1] != '-'
    decreases |s|
  {
    i, j := 0, |s|;
    if s != "" && s[0] == '-' {
      i, j := TrimDashesIs(s[1..]);
      i, j := i + 1, j + 1;
      assert s[1..][i - 1..j - 1] == s[i..j];
      forall k | 0 <= k < i || j <= k < |s| ensures s[k] == '-' {
        if k > 0 { assert s[1..][k - 1] == s[k]; }
      }
    } else if s != "" && s[|s| - 1] == '-' {
      var front := s[..|s| - 1];
      i, j := TrimDashesIs(front);
      assert front[i..j] == s[i..j];
      forall k | 0 <= k < i || j <= k < |s| ensures s[k] == '-' {
        if k < |front| { assert front[k] == s[k]; }
      }
    } else {
      assert s[0..|s|] == s;
    }
  }

  /** The stretch of a name that is kept: it starts at the first letter or digit, holds at most 15
      characters, and ends in a letter or digit with only fillers between its end and the fifteenth. */
  predicate KeptStretch(name: string, i: nat, j: nat)
  {
    i <= j <= |name| && j - i <= 15 &&
    (forall k | 0 <= k < i :: !IsPlainChar(name[k])) &&
    (forall k | j <= k < |name| && k < i + 15 :: !IsPlainChar(name[k])) &&
    (i < j ==> IsPlainChar(name[i]) && IsPlainChar(name[j - 1]))
  }

  /** Of n characters from i on, the first no hyphen, trimming takes only the hyphens at the end. */
  lemma TrimStretch(s: string, i: nat, n: nat) returns (b: nat)
    requires n > 0 && i + n <= |s| && s[i] != '-'
    ensures 0 < b <= n && TrimDashes(s[i..i + n]) == s[i..i + b] && s[i + b - 1] != '-'
    ensures forall k | i + b <= k < i + n :: s[k] == '-'
  {
    hide TrimDashes;
    var cut := s[i..i + n];
    assert cut[0] == s[i];
    var a, end := TrimDashesIs(cut);
    assert a == 0 && end > 0;
    b := end;
    assert cut[..b] == s[i..i + b] && cut[0..b] == cut[..b] && cut[b - 1] == s[i + b - 1];
    forall k | i + b <= k < i + n ensures s[k] == '-' { assert cut[k - i] == s[k]; }
  }

  lemma CutDashes(s: string) returns (i: nat, j: nat)
    ensures var trimmed := TrimDashes(s);
      i <= j <= |s| && j - i <= 15 &&
      (if |trimmed| > MAX_NAME_LENGTH then TrimDashes(trimmed[..MAX_NAME_LENGTH]) else trimmed) == s[i..j] &&
      (forall k | 0 <= k < i :: s[k] == '-') && (forall k | j <= k < |s| && k < i + 15 :: s[k] == '-') &&
      (i < j ==> s[i] != '-' && s[j - 1] != '-')
  {
    hide TrimDashes;
    i, j := TrimDashesIs(s);
    if j - i > MAX_NAME_LENGTH {
      assert s[i..j][..15] == s[i..i + 15];
      var b := TrimStretch(s, i, 15);
      j := i + b;
    }
  }

  lemma CleanIs(name: string)
    ensures |Clean(name)| == |name|
    ensures forall k | 0 <= k < |name| ::
      Folds(name[k], Clean(name)[k]) && (Clean(name)[k] == '-' <==> !IsPlainChar(name[k])) &&
      (IsLetter(Clean(name)[k]) <==> IsPlainLetter(name[k]))
  {
    forall k | 0 <= k < |name| ensures Clean(name)[k] == CleanChar(name[k]) { CleanFolds(name[k]); }
    forall k | 0 <= k < |name|
      ensures Folds(name[k], CleanChar(name[k])) && (CleanChar(name[k]) == '-' <==> !IsPlainChar(name[k]))
      ensures IsLetter(CleanChar(name[k])) <==> IsPlainLetter(name[k])
    {
      CleanFolds(name[k]);
    }
    hide Folds, CleanChar, IsPlainChar, IsPlainLetter, IsLetter;
  }

  lemma LettersAreKept(name: string, i: nat, j: nat)
    requires i <= j <= |name|
    ensures HasLetter(Clean(name)[i..j]) <==> exists k | i <= k < j :: IsPlainLetter(name[k])
  {
    CleanIs(name);
    hide IsPlainLetter, IsLetter, Clean, Folds, IsPlainChar;
    var n := Clean(name)[i..j];
    if HasLetter(n) {
      var c :| c in n && IsLetter(c);
      var k :| 0 <= k < |n| && n[k] == c;
      assert IsPlainLetter(name[i + k]);
    }
    if k :| i <= k < j && IsPlainLetter(name[k]) { assert n[k - i] in n; }
  }

  /** The three cases of a repaired name. */
  lemma SanitizedIs(name: string, port: nat, i: nat, j: nat)
    requires port <= MAX_INT32 && i <= j <= |name| && |Clean(name)| == |name|
    requires var trimmed := TrimDashes(Clean(name));
      (if |trimmed| > MAX_NAME_LENGTH then TrimDashes(trimmed[..MAX_NAME_LENGTH]) else trimmed) == Clean(name)[i..j]
    ensures SanitizePortName(name, port) ==
      if HasLetter(Clean(name)[i..j]) then Clean(name)[i..j] else "p-" + Decimal(port)
  {
    hide TrimDashes, Clean, Decimal, HasLetter;
    FallbackLength(port);
    NoLetters();
  }

  /** Repair keeps one stretch of the name, folded; a stretch without a letter gives way to the port. */
  lemma SanitizedIsStretch(name: string, port: nat) returns (i: nat, j: nat)
    requires port <= MAX_INT32
    ensures KeptStretch(name, i, j)
    ensures var r := SanitizePortName(name, port);
      if exists k | i <= k < j :: IsPlainLetter(name[k])
      then |r| == j - i && forall k | 0 <= k < |r| :: Folds(name[i + k], r[k])
      else r == "p-" + Decimal(port)
  {
    hide TrimDashes, Clean, Decimal, Folds, HasLetter, IsPlainChar, IsPlainLetter, SanitizePortName, IsLetter;
    CleanIs(name);
    i, j := CutDashes(Clean(name));
    LettersAreKept(name, i, j);
    SanitizedIs(name, port, i, j);
  }

  lemma NoLetters()
    ensures !HasLetter("")
  {}

  // ---------- Making names unique ----------

  /** The first suffix that no longer leaves room for a base character. */
  const SUFFIX_LIMIT: nat := 10_000_000_000_000

  function Suffix(i: nat): string { "-" + Decimal(i) }

  lemma SuffixLength(i: nat)
    requires i < SUFFIX_LIMIT
    ensures 2 <= |Suffix(i)| <= 14
  {
    assert PowerOfTen(13) == SUFFIX_LIMIT by {
      assert PowerOfTen(5) == 100_000;
      assert PowerOfTen(8) == 1000 * PowerOfTen(5);
      assert PowerOfTen(13) == 100_000 * PowerOfTen(8);
    }
    DecimalLength(i, 13);
  }

  function Stem(base: string, i: nat): (r: string)
    requires i < SUFFIX_LIMIT
  {
    SuffixLength(i);
    var keep := MAX_NAME_LENGTH - |Suffix(i)|;
    if |base| <= keep then base
    else
      var trimmed := TrimDashes(base[..keep]);
      if trimmed == "" then "p" else trimmed
  }

  function Candidate(base: string, i: nat): string
    requires i < SUFFIX_LIMIT
  {
    Stem(base, i) + Suffix(i)
  }

  lemma StemIsWellShaped(base: string, i: nat)
    requires i < SUFFIX_LIMIT && WellShaped(base)
    ensures var stem := Stem(base, i);
      stem != "" && |stem| + |Suffix(i)| <= MAX_NAME_LENGTH && IsAlphanumeric(stem[0]) &&
      forall c | c in stem :: IsNameChar(c)
  {
    SuffixLength(i);
    var keep := MAX_NAME_LENGTH - |Suffix(i)|;
    if |base| > keep {
      var trimmed := TrimDashes(base[..keep]);
      assert forall c | c in trimmed :: c in base;
      assert trimmed != "" ==> trimmed[0] in trimmed;
    }
  }

  lemma CandidateIsWellShaped(base: string, i: nat)
    requires i < SUFFIX_LIMIT && WellShaped(base)
    ensures WellShaped(Candidate(base, i))
  {
    StemIsWellShaped(base, i);
    hide Stem, Decimal;
    var stem, digits, name := Stem(base, i), Decimal(i), Candidate(base, i);
    assert name == stem + "-" + digits;
    assert name[0] == stem[0];
    assert name[|name| - 1] == digits[|digits| - 1] && digits[|digits| - 1] in digits;
    assert forall c | c in name :: c in stem || c == '-' || c in digits;
  }

  /** A candidate is the name and the suffix, the name cut to fit and not ending in a hyphen. */
  lemma CandidateIsCut(base: string, i: nat) returns (j: nat)
    requires i < SUFFIX_LIMIT && WellShaped(base)
    ensures j <= |base| && Candidate(base, i) == base[..j] + "-" + Decimal(i)
    ensures j > 0 && base[j - 1] != '-' && j + 1 + |Decimal(i)| <= 15
    ensures forall k | j <= k < |base| && k + 1 + |Decimal(i)| < 15 :: base[k] == '-'
  {
    SuffixLength(i);
    var keep := MAX_NAME_LENGTH - |Suffix(i)|;
    assert base[0] in base && base[|base| - 1] in base;
    j := |base|;
    assert base[..|base|] == base;
    if |base| > keep {
      assert base[0..keep] == base[..keep];
      j := TrimStretch(base, 0, keep);
      assert base[0..j] == base[..j];
    }
    hide Decimal, TrimDashes;
    assert base[..j] + ("-" + Decimal(i)) == base[..j] + "-" + Decimal(i);
  }

  /** Different suffixes give different candidates, whatever was cut off the base. */
  lemma CandidatesDiffer(base: string, i: nat, j: nat)
    requires i < SUFFIX_LIMIT && j < SUFFIX_LIMIT
    requires Candidate(base, i) == Candidate(base, j)
    ensures i == j
  {
    var a, b := Stem(base, i), Stem(base, j);
    assert Candidate(base, i) == a + ['-'] + Decimal(i);
    assert Candidate(base, j) == b + ['-'] + Decimal(j);
    LastIndexSplits(a, '-', Decimal(i));
    LastIndexSplits(b, '-', Decimal(j));
    assert Decimal(i) == Candidate(base, i)[|a| + 1..];
    assert Decimal(j) == Candidate(base, j)[|b| + 1..];
    DecimalInjective(i, j);
  }

  /** Pigeonhole: k candidates that are all taken need k taken names. */
  lemma {:induction false} TakenCandidates(base: string, n: nat, used: set<string>)
    requires 2 <= n <= SUFFIX_LIMIT
    requires forall i | 2 <= i < n :: Candidate(base, i) in used
    ensures n - 2 <= |used|
  {
    if n > 2 {
      var last := Candidate(base, n - 1);
      forall i | 2 <= i < n - 1 ensures Candidate(base, i) in used - {last} {
        if Candidate(base, i) == last {
          CandidatesDiffer(base, i, n - 1);
        }
      }
      TakenCandidates(base, n - 1, used - {last});
    }
  }

  /** r is the name picked for a port when the names in used are taken: the repaired name
      itself if it is free, otherwise the first free suffix of it. */
  ghost predicate IsUniqueName(name: string, port: nat, used: set<string>, r: string)
    requires port <= MAX_INT32
  {
    var base := SanitizePortName(name, port);
    if base !in used then r == base
    else
      exists k: nat | 2 <= k <= |used| + 2 && k < SUFFIX_LIMIT ::
        r == Candidate(base, k) && r !in used &&
        forall i: nat | 2 <= i < k :: Candidate(base, i) in used
  }

  /** Numbering starts at two: a second port of a short name gets it with "-2". */
  lemma SecondOfANameIsTwo(name: string, port: nat, used: set<string>, r: string)
    requires port <= MAX_INT32 && IsUniqueName(name, port, used, r)
    ensures var base := SanitizePortName(name, port);
      if base !in used then r == base
      else |base| <= 13 && base + "-2" !in used ==> r == base + "-2"
  {
    var base := SanitizePortName(name, port);
    assert Decimal(2) == "2" && Suffix(2) == "-2";
    assert |base| <= 13 ==> Candidate(base, 2) == base + "-2";
    hide SanitizePortName, Decimal;
  }

  lemma UniqueNameIsFreshAndWellShaped(name: string, port: nat, used: set<string>, r: string)
    requires port <= MAX_INT32 && IsUniqueName(name, port, used, r)
    ensures r !in used && WellShaped(r)
  {
    var base := SanitizePortName(name, port);
    SanitizedIsWellShaped(name, port);
    if base in used {
      var k: nat :| 2 <= k <= |used| + 2 && k < SUFFIX_LIMIT && r == Candidate(base, k);
      CandidateIsWellShaped(base, k);
    }
  }

  /** The names handed out so far. */
  class UsedNames {
    var names: set<string>

    constructor ()
      ensures names == {}
    {
      names := {};
    }

    /** uniquePortName: needs at most |names| + 1 further tries. */
    method UniquePortName(name: string, port: nat) returns (candidate: string)
      requires port <= MAX_INT32 && |names| + 3 < SUFFIX_LIMIT
      modifies this
      ensures IsUniqueName(name, port, old(names), candidate)
      ensures candidate !in old(names) && WellShaped(candidate)
      ensures names == old(names) + {candidate}
    {
      var base := SanitizePortName(name, port);
      candidate := base;
      var i := 2;
      while candidate in names
        invariant 2 <= i <= |names| + 3 < SUFFIX_LIMIT
        invariant candidate == if i == 2 then base else Candidate(base, i - 1)
        invariant names == old(names) && (i > 2 ==> base in names)
        invariant forall j | 2 <= j < i - 1 :: Candidate(base, j) in names
        decreases |names| + 3 - i
      {
        TakenCandidates(base, i, names);
        candidate := Candidate(base, i);
        i := i + 1;
      }
      assert i > 2 ==> 2 <= i - 1 <= |names| + 2 && candidate == Candidate(base, i - 1);
      assert IsUniqueName(name, port, old(names), candidate);
      UniqueNameIsFreshAndWellShaped(name, port, names, candidate);
      names := names + {candidate};
    }
  }

  // ---------- The two builders ----------

  /** v1alpha1.ServicePort; numbers are int32, zero when absent. */
  datatype ServicePort = ServicePort(name: string, port: int, protocol: string, targetPort: int, nodePort: int)

  datatype ContainerPort = ContainerPort(name: string, containerPort: int, protocol: string)

  datatype ExposedPort = ExposedPort(name: string, port: int, targetPort: int, protocol: string, nodePort: int)

  predicate Int32(n: int) { -MAX_INT32 - 1 <= n <= MAX_INT32 }

  predicate InRange(p: ServicePort) { Int32(p.port) && Int32(p.targetPort) && Int32(p.nodePort) }

  function Protocol(p: ServicePort): string { if p.protocol != "" then p.protocol else "TCP" }

  function Target(p: ServicePort): int { if p.targetPort == 0 then p.port else p.targetPort }

  /** The text both builders use to recognise a repeated port and protocol. */
  function PairKey(port: nat, protocol: string): string { Decimal(port) + "/" + protocol }

  lemma PairKeyInjective(m: nat, p: string, n: nat, q: string)
    requires PairKey(m, p) == PairKey(n, q)
    ensures m == n && p == q
  {
    FirstSlash(Decimal(m), p);
    FirstSlash(Decimal(n), q);
    assert Decimal(m) == PairKey(m, p)[..|Decimal(m)|] == Decimal(n);
    assert p == PairKey(m, p)[|Decimal(m)| + 1..] == q;
    DecimalInjective(m, n);
  }

  function IndexOfSlash(s: string): nat
  {
    if s == "" || s[0] == '/' then 0 else 1 + IndexOfSlash(s[1..])
  }

  lemma {:induction false} FirstSlash(digits: string, protocol: string)
    requires AllDigits(digits)
    ensures IndexOfSlash(digits + "/" + protocol) == |digits|
  {
    var s := digits + "/" + protocol;
    if digits != "" {
      assert s[0] == digits[0] && digits[0] in digits;
      assert s[1..] == digits[1..] + "/" + protocol;
      FirstSlash(digits[1..], protocol);
    }
  }

  /** The number a builder exposes for an entry: its target in a container, its own port
      in a Service. */
  function Exposed(p: ServicePort, inContainer: bool): int
  {
    if inContainer then Target(p) else p.port
  }

  predicate SamePair(p: ServicePort, q: ServicePort, inContainer: bool)
  {
    Exposed(p, inContainer) == Exposed(q, inContainer) && Protocol(p) == Protocol(q)
  }

  predicate Repeats(kept: seq<ServicePort>, p: ServicePort, inContainer: bool)
  {
    exists q | q in kept :: SamePair(q, p, inContainer)
  }

  /** The first entry of each positive pair of number and protocol, in order. */
  function FirstOfEach(ports: seq<ServicePort>, inContainer: bool): seq<ServicePort>
  {
    if ports == [] then []
    else
      var rest := FirstOfEach(ports[..|ports| - 1], inContainer);
      var p := ports[|ports| - 1];
      if Exposed(p, inContainer) > 0 && !Repeats(rest, p, inContainer) then rest + [p] else rest
  }

  ghost predicate PairwiseDistinct(kept: seq<ServicePort>, inContainer: bool)
  {
    forall i, j | 0 <= i < j < |kept| :: !SamePair(kept[i], kept[j], inContainer)
  }

  lemma {:induction false} FirstOfEachIsPart(ports: seq<ServicePort>, inContainer: bool)
    ensures forall q | q in FirstOfEach(ports, inContainer) :: q in ports && Exposed(q, inContainer) > 0
  {
    if ports != [] {
      FirstOfEachIsPart(ports[..|ports| - 1], inContainer);
    }
  }

  lemma {:induction false} FirstOfEachHasNoRepeats(ports: seq<ServicePort>, inContainer: bool)
    ensures PairwiseDistinct(FirstOfEach(ports, inContainer), inContainer)
  {
    if ports != [] {
      FirstOfEachHasNoRepeats(ports[..|ports| - 1], inContainer);
    }
  }

  lemma {:induction false} FirstOfEachCovers(ports: seq<ServicePort>, inContainer: bool, p: ServicePort)
    requires p in ports && Exposed(p, inContainer) > 0
    ensures Repeats(FirstOfEach(ports, inContainer), p, inContainer)
  {
    var front, last := ports[..|ports| - 1], ports[|ports| - 1];
    var rest, kept := FirstOfEach(front, inContainer), FirstOfEach(ports, inContainer);
    if p in front {
      FirstOfEachCovers(front, inContainer, p);
      var q :| q in rest && SamePair(q, p, inContainer);
      assert q in kept;
    } else {
      assert p == last;
      if !Repeats(rest, p, inContainer) {
        assert kept[|kept| - 1] == p && SamePair(p, p, inContainer);
      } else {
        var q :| q in rest && SamePair(q, p, inContainer);
        assert q in kept;
      }
    }
  }

  /** Nothing is dropped from a list whose pairs are positive and distinct. */
  lemma {:induction false} FirstOfEachKeepsDistinct(ports: seq<ServicePort>, inContainer: bool)
    requires forall p | p in ports :: Exposed(p, inContainer) > 0
    requires PairwiseDistinct(ports, inContainer)
    ensures FirstOfEach(ports, inContainer) == ports
  {
    if ports != [] {
      FirstOfEachKeepsDistinct(ports[..|ports| - 1], inContainer);
    }
  }

  lemma FirstOfEachStep(ports: seq<ServicePort>, p: ServicePort, inContainer: bool)
    ensures FirstOfEach(ports + [p], inContainer) ==
            if Exposed(p, inContainer) > 0 && !Repeats(FirstOfEach(ports, inContainer), p, inContainer)
            then FirstOfEach(ports, inContainer) + [p] else FirstOfEach(ports, inContainer)
  {
    assert (ports + [p])[..|ports|] == ports;
  }

  function SeenKeys(kept: seq<ServicePort>, inContainer: bool): set<string>
  {
    set q | q in kept && Exposed(q, inContainer) > 0 :: PairKey(Exposed(q, inContainer), Protocol(q))
  }

  /** The set of texts recognises exactly the repeated pairs. */
  lemma SeenKeysAreExact(kept: seq<ServicePort>, p: ServicePort, inContainer: bool)
    requires Exposed(p, inContainer) > 0
    requires forall q | q in kept :: Exposed(q, inContainer) > 0
    ensures PairKey(Exposed(p, inContainer), Protocol(p)) in SeenKeys(kept, inContainer) <==>
            Repeats(kept, p, inContainer)
    ensures SeenKeys(kept + [p], inContainer) ==
            SeenKeys(kept, inContainer) + {PairKey(Exposed(p, inContainer), Protocol(p))}
  {
    var number, key := Exposed(p, inContainer), PairKey(Exposed(p, inContainer), Protocol(p));
    forall q | q in kept && PairKey(Exposed(q, inContainer), Protocol(q)) == key
      ensures SamePair(q, p, inContainer)
    {
      PairKeyInjective(Exposed(q, inContainer), Protocol(q), number, Protocol(p));
    }
  }

  /** Indices of entries with a positive number, in order. */
  ghost predicate InOrder(ports: seq<ServicePort>, at: seq<nat>, inContainer: bool)
  {
    (forall i | 0 <= i < |at| :: at[i] < |ports| && Exposed(ports[at[i]], inContainer) > 0) &&
    forall i, j | 0 <= i < j < |at| :: at[i] < at[j]
  }

  /** One of them comes no later than entry k and has its pair. */
  ghost predicate StandsIn(ports: seq<ServicePort>, at: seq<nat>, k: nat, inContainer: bool)
    requires k < |ports| && InOrder(ports, at, inContainer)
  {
    exists i | 0 <= i < |at| :: at[i] <= k && SamePair(ports[at[i]], ports[k], inContainer)
  }

  /** They are the first entries of their pairs: no earlier entry has the pair of one, and each entry with
      a positive number has one standing in for it. */
  ghost predicate AreFirsts(ports: seq<ServicePort>, at: seq<nat>, inContainer: bool)
  {
    InOrder(ports, at, inContainer) &&
    (forall i, k | 0 <= i < |at| && 0 <= k < at[i] :: !SamePair(ports[k], ports[at[i]], inContainer)) &&
    forall k | 0 <= k < |ports| && Exposed(ports[k], inContainer) > 0 :: StandsIn(ports, at, k, inContainer)
  }

  lemma InOrderGoesOn(front: seq<ServicePort>, p: ServicePort, at: seq<nat>, inContainer: bool)
    requires InOrder(front, at, inContainer)
    ensures InOrder(front + [p], at, inContainer)
    ensures Exposed(p, inContainer) > 0 ==> InOrder(front + [p], at + [|front|], inContainer)
  {
    hide Exposed;
  }

  lemma StandInStays(front: seq<ServicePort>, p: ServicePort, at: seq<nat>, at': seq<nat>, k: nat, inContainer: bool)
    requires k < |front| && InOrder(front, at, inContainer) && StandsIn(front, at, k, inContainer) && at <= at'
    requires InOrder(front + [p], at', inContainer)
    ensures StandsIn(front + [p], at', k, inContainer)
  {
    hide Exposed, Protocol;
    var i :| 0 <= i < |at| && at[i] <= k && SamePair(front[at[i]], front[k], inContainer);
    assert at'[i] == at[i] && (front + [p])[at[i]] == front[at[i]] && (front + [p])[k] == front[k];
  }

  lemma SeenIsStoodFor(front: seq<ServicePort>, p: ServicePort, at: seq<nat>, k: nat, inContainer: bool)
    requires AreFirsts(front, at, inContainer) && k < |front| && SamePair(front[k], p, inContainer) && Exposed(p, inContainer) > 0
    ensures exists i | 0 <= i < |at| :: SamePair(front[at[i]], p, inContainer)
  {
    hide Exposed, Protocol;
    assert StandsIn(front, at, k, inContainer);
    var i :| 0 <= i < |at| && at[i] <= k && SamePair(front[at[i]], front[k], inContainer);
    assert SamePair(front[at[i]], p, inContainer);
  }

  lemma FirstsStay(front: seq<ServicePort>, p: ServicePort, at: seq<nat>, inContainer: bool)
    requires AreFirsts(front, at, inContainer)
    ensures var ports := front + [p];
      InOrder(ports, at, inContainer) && forall i, k | 0 <= i < |at| && 0 <= k < at[i] :: !SamePair(ports[k], ports[at[i]], inContainer)
  {
    InOrderGoesOn(front, p, at, inContainer);
    hide Exposed, SamePair, StandsIn;
    var ports := front + [p];
    forall i, k | 0 <= i < |at| && 0 <= k < at[i] ensures !SamePair(ports[k], ports[at[i]], inContainer) {
      assert ports[k] == front[k] && ports[at[i]] == front[at[i]];
    }
  }

  lemma LastIsStoodFor(front: seq<ServicePort>, p: ServicePort, at: seq<nat>, i: nat, inContainer: bool)
    requires InOrder(front, at, inContainer) && InOrder(front + [p], at, inContainer)
    requires i < |at| && SamePair(front[at[i]], p, inContainer)
    ensures StandsIn(front + [p], at, |front|, inContainer)
  {
    hide Exposed, SamePair;
    assert (front + [p])[at[i]] == front[at[i]];
  }

  /** An entry whose pair was seen is skipped. */
  lemma SeenIsSkipped(front: seq<ServicePort>, p: ServicePort, at: seq<nat>, inContainer: bool)
    requires AreFirsts(front, at, inContainer)
    requires Exposed(p, inContainer) <= 0 || exists i | 0 <= i < |at| :: SamePair(front[at[i]], p, inContainer)
    ensures AreFirsts(front + [p], at, inContainer)
  {
    var ports := front + [p];
    FirstsStay(front, p, at, inContainer);
    hide Exposed, SamePair, StandsIn, InOrder;
    forall k | 0 <= k < |ports| && Exposed(ports[k], inContainer) > 0 ensures StandsIn(ports, at, k, inContainer) {
      if k < |front| {
        StandInStays(front, p, at, at, k, inContainer);
      } else {
        var i :| 0 <= i < |at| && SamePair(front[at[i]], p, inContainer);
        LastIsStoodFor(front, p, at, i, inContainer);
      }
    }
  }

  /** One whose pair is new is the first of it. */
  lemma NewIsFirst(front: seq<ServicePort>, p: ServicePort, at: seq<nat>, inContainer: bool)
    requires AreFirsts(front, at, inContainer) && Exposed(p, inContainer) > 0
    requires forall i | 0 <= i < |at| :: !SamePair(front[at[i]], p, inContainer)
    ensures AreFirsts(front + [p], at + [|front|], inContainer)
  {
    var ports, at' := front + [p], at + [|front|];
    InOrderGoesOn(front, p, at, inContainer);
    forall k | 0 <= k < |front| ensures !SamePair(front[k], p, inContainer) {
      if SamePair(front[k], p, inContainer) { SeenIsStoodFor(front, p, at, k, inContainer); }
    }
    hide Exposed, Protocol;
    forall k | 0 <= k < |ports| && Exposed(ports[k], inContainer) > 0 ensures StandsIn(ports, at', k, inContainer) {
      if k < |front| { StandInStays(front, p, at, at', k, inContainer); } else { assert at'[|at|] == k; }
    }
    forall i, k | 0 <= i < |at'| && 0 <= k < at'[i] ensures !SamePair(ports[k], ports[at'[i]], inContainer) {
      if i < |at| { assert ports[k] == front[k] && ports[at[i]] == front[at[i]]; }
    }
  }

  ghost predicate Picks(ports: seq<ServicePort>, at: seq<nat>, kept: seq<ServicePort>)
  {
    |kept| == |at| && forall i | 0 <= i < |at| :: at[i] < |ports| && kept[i] == ports[at[i]]
  }

  lemma PicksGoOn(front: seq<ServicePort>, p: ServicePort, at: seq<nat>, kept: seq<ServicePort>)
    requires Picks(front, at, kept)
    ensures Picks(front + [p], at, kept) && Picks(front + [p], at + [|front|], kept + [p])
  {}

  lemma SeenMeansKept(front: seq<ServicePort>, p: ServicePort, at: seq<nat>, kept: seq<ServicePort>, inContainer: bool)
    requires Picks(front, at, kept)
    ensures Repeats(kept, p, inContainer) <==> exists i | 0 <= i < |at| :: SamePair(front[at[i]], p, inContainer)
  {
    hide SamePair, Exposed;
    if Repeats(kept, p, inContainer) {
      var q :| q in kept && SamePair(q, p, inContainer);
      var i :| 0 <= i < |kept| && kept[i] == q;
      assert SamePair(front[at[i]], p, inContainer);
    }
    if i :| 0 <= i < |at| && SamePair(front[at[i]], p, inContainer) {
      assert kept[i] in kept;
    }
  }

  lemma NoFirsts(inContainer: bool)
    ensures AreFirsts([], [], inContainer) && FirstOfEach([], inContainer) == [] && Picks([], [], [])
  {}

  lemma {:induction false} FirstOfEachIsFirst(ports: seq<ServicePort>, inContainer: bool) returns (at: seq<nat>)
    ensures AreFirsts(ports, at, inContainer) && Picks(ports, at, FirstOfEach(ports, inContainer))
  {
    hide FirstOfEach, AreFirsts, SamePair, Repeats, Picks;
    NoFirsts(inContainer);
    at := [];
    if ports != [] {
      var front, p := ports[..|ports| - 1], ports[|ports| - 1];
      at := FirstOfEachIsFirst(front, inContainer);
      var kept := FirstOfEach(front, inContainer);
      assert ports == front + [p];
      FirstOfEachStep(front, p, inContainer);
      PicksGoOn(front, p, at, kept);
      PicksAreInRange(front, at, kept);
      SeenMeansKept(front, p, at, kept, inContainer);
      if Exposed(p, inContainer) > 0 && !Repeats(kept, p, inContainer) {
        NewIsFirst(front, p, at, inContainer);
        at := at + [|front|];
      } else {
        SeenIsSkipped(front, p, at, inContainer);
      }
    }
  }

  lemma PicksAreInRange(front: seq<ServicePort>, at: seq<nat>, kept: seq<ServicePort>)
    requires Picks(front, at, kept)
    ensures forall i | 0 <= i < |at| :: at[i] < |front|
  {}

  // ---------- Names of a whole list ----------

  function NamesBefore(names: seq<string>, i: nat): set<string>
    requires i <= |names|
  {
    set n | n in names[..i]
  }

  ghost predicate NamedAt(kept: seq<ServicePort>, names: seq<string>, inContainer: bool, i: nat)
    requires i < |kept| == |names|
  {
    0 <= Exposed(kept[i], inContainer) <= MAX_INT32 &&
    IsUniqueName(kept[i].name, Exposed(kept[i], inContainer), NamesBefore(names, i), names[i])
  }

  /** Each entry is named when the names of the entries before it are taken. */
  ghost predicate NamedApart(kept: seq<ServicePort>, names: seq<string>, inContainer: bool)
  {
    |names| == |kept| && forall i | 0 <= i < |kept| :: NamedAt(kept, names, inContainer, i)
  }

  lemma NamedApartExtends(kept: seq<ServicePort>, names: seq<string>, inContainer: bool, p: ServicePort, name: string)
    requires NamedApart(kept, names, inContainer)
    requires 0 <= Exposed(p, inContainer) <= MAX_INT32
    requires IsUniqueName(p.name, Exposed(p, inContainer), NamesBefore(names, |names|), name)
    ensures NamedApart(kept + [p], names + [name], inContainer)
    ensures NamesBefore(names + [name], |names| + 1) == NamesBefore(names, |names|) + {name}
  {
    var names' := names + [name];
    assert names'[..|names| + 1] == names[..|names|] + [name];
    forall i | 0 <= i < |names'| ensures NamedAt(kept + [p], names', inContainer, i) {
      assert names'[..i] == names[..i];
      assert i < |kept| ==> NamedAt(kept, names, inContainer, i);
    }
  }

  lemma NamedApartMeansDistinct(kept: seq<ServicePort>, names: seq<string>, inContainer: bool)
    requires NamedApart(kept, names, inContainer)
    ensures forall i | 0 <= i < |names| :: WellShaped(names[i])
    ensures forall i, j | 0 <= i < j < |names| :: names[i] != names[j]
  {
    forall i | 0 <= i < |names| ensures WellShaped(names[i]) && names[i] !in NamesBefore(names, i) {
      assert NamedAt(kept, names, inContainer, i);
      UniqueNameIsFreshAndWellShaped(
        kept[i].name, Exposed(kept[i], inContainer), NamesBefore(names, i), names[i]);
    }
    forall i, j | 0 <= i < j < |names| ensures names[i] != names[j] {
      assert names[j] !in NamesBefore(names, j) && names[..j][i] == names[i];
    }
  }

  /** Names that are legal and distinct already are the names used. */
  lemma {:induction false} LegalNamesAreKept(kept: seq<ServicePort>, names: seq<string>, inContainer: bool, n: nat)
    requires NamedApart(kept, names, inContainer) && n <= |kept|
    requires forall i | 0 <= i < n :: WellShaped(kept[i].name) && HasLetter(kept[i].name)
    requires forall i, j | 0 <= i < j < n :: kept[i].name != kept[j].name
    ensures forall i | 0 <= i < n :: names[i] == kept[i].name
  {
    if n > 0 {
      LegalNamesAreKept(kept, names, inContainer, n - 1);
      assert NamedAt(kept, names, inContainer, n - 1);
      SanitizeKeepsLegalNames(kept[n - 1].name, Exposed(kept[n - 1], inContainer));
    }
  }

  // ---------- The two builders ----------

  function ContainerNames(out: seq<ContainerPort>): seq<string>
  {
    seq(|out|, i requires 0 <= i < |out| => out[i].name)
  }

  function Contain(p: ServicePort, name: string): ContainerPort
  {
    ContainerPort(name, Target(p), Protocol(p))
  }

  ghost predicate IsContainerPorts(ports: seq<ServicePort>, out: seq<ContainerPort>)
  {
    var kept := FirstOfEach(ports, true);
    |out| == |kept| &&
    (forall i | 0 <= i < |out| :: out[i] == Contain(kept[i], out[i].name)) &&
    NamedApart(kept, ContainerNames(out), true)
  }

  /** Where the container builder stands after the entries in ports. */
  ghost predicate ContainerProgress(
    ports: seq<ServicePort>, out: seq<ContainerPort>, seen: set<string>, names: set<string>)
  {
    IsContainerPorts(ports, out) && seen == SeenKeys(FirstOfEach(ports, true), true) &&
    names == NamesBefore(ContainerNames(out), |out|)
  }

  lemma ContainerSkips(
    ports: seq<ServicePort>, p: ServicePort, out: seq<ContainerPort>, seen: set<string>, names: set<string>)
    requires ContainerProgress(ports, out, seen, names)
    requires Target(p) <= 0 || PairKey(Target(p), Protocol(p)) in seen
    ensures ContainerProgress(ports + [p], out, seen, names)
  {
    FirstOfEachStep(ports, p, true);
    FirstOfEachIsPart(ports, true);
    hide NamedApart, Repeats, NamesBefore, FirstOfEach, SeenKeys;
    if Target(p) > 0 {
      SeenKeysAreExact(FirstOfEach(ports, true), p, true);
    }
  }

  lemma ContainerExtends(
    ports: seq<ServicePort>, p: ServicePort, out: seq<ContainerPort>, seen: set<string>, names: set<string>,
    name: string)
    requires ContainerProgress(ports, out, seen, names)
    requires 0 < Target(p) <= MAX_INT32 && PairKey(Target(p), Protocol(p)) !in seen
    requires IsUniqueName(p.name, Target(p), names, name)
    ensures ContainerProgress(
      ports + [p], out + [Contain(p, name)], seen + {PairKey(Target(p), Protocol(p))}, names + {name})
  {
    FirstOfEachStep(ports, p, true);
    FirstOfEachIsPart(ports, true);
    hide IsUniqueName, Repeats, NamesBefore, FirstOfEach, SeenKeys;
    SeenKeysAreExact(FirstOfEach(ports, true), p, true);
    NamedApartExtends(FirstOfEach(ports, true), ContainerNames(out), true, p, name);
    assert ContainerNames(out + [Contain(p, name)]) == ContainerNames(out) + [name];
  }

  lemma ContainerStarts()
    ensures ContainerProgress([], [], {}, {})
  {}

  lemma ContainerEnds(ports: seq<ServicePort>, out: seq<ContainerPort>, seen: set<string>, names: set<string>)
    requires ContainerProgress(ports, out, seen, names)
    ensures IsContainerPorts(ports, out)
  {}

  method BuildContainerPorts(ports: seq<ServicePort>) returns (out: seq<ContainerPort>)
    requires |ports| + 3 < SUFFIX_LIMIT && forall p | p in ports :: InRange(p)
    ensures IsContainerPorts(ports, out)
  {
    hide ContainerProgress, IsContainerPorts, IsUniqueName, WellShaped, PairKey;
    out := [];
    var seen: set<string> := {};
    var used := new UsedNames();
    ContainerStarts();
    for i := 0 to |ports|
      invariant fresh(used) && |used.names| <= i
      invariant ContainerProgress(ports[..i], out, seen, used.names)
    {
      var p := ports[i];
      assert ports[..i + 1] == ports[..i] + [p] && InRange(p);
      var protocol, targetPort := Protocol(p), Target(p);
      if targetPort <= 0 {
        ContainerSkips(ports[..i], p, out, seen, used.names);
        continue;
      }
      var key := PairKey(targetPort, protocol);
      if key in seen {
        ContainerSkips(ports[..i], p, out, seen, used.names);
        continue;
      }
      ghost var seenBefore, namesBefore := seen, used.names;
      seen := seen + {key};
      var name := used.UniquePortName(p.name, targetPort);
      ContainerExtends(ports[..i], p, out, seenBefore, namesBefore, name);
      out := out + [ContainerPort(name, targetPort, protocol)];
    }
    assert ports[..|ports|] == ports;
    ContainerEnds(ports, out, seen, used.names);
  }

  /** The entry c stands for one of the positive entries of ports. */
  ghost predicate StandsFor(c: ContainerPort, ports: seq<ServicePort>)
  {
    exists p | p in ports :: Target(p) > 0 && c == Contain(p, c.name)
  }

  ghost predicate Covered(p: ServicePort, out: seq<ContainerPort>)
  {
    exists c | c in out :: c == Contain(p, c.name)
  }

  lemma ContainerPortCovers(ports: seq<ServicePort>, out: seq<ContainerPort>, p: ServicePort)
    requires IsContainerPorts(ports, out) && p in ports && Target(p) > 0
    ensures Covered(p, out)
  {
    hide NamedApart;
    FirstOfEachCovers(ports, true, p);
    var kept := FirstOfEach(ports, true);
    var q :| q in kept && SamePair(q, p, true);
    var i :| 0 <= i < |kept| && kept[i] == q;
    assert out[i] in out && out[i] == Contain(kept[i], out[i].name);
  }

  /** A container exposes exactly the positive (target port, protocol) pairs of its list,
      each once ... */
  lemma ContainerPortsAreExact(ports: seq<ServicePort>, out: seq<ContainerPort>)
    requires IsContainerPorts(ports, out)
    ensures forall p | p in ports && Target(p) > 0 :: Covered(p, out)
    ensures forall i | 0 <= i < |out| :: StandsFor(out[i], ports)
    ensures forall i, j | 0 <= i < j < |out| ::
      out[i].containerPort != out[j].containerPort || out[i].protocol != out[j].protocol
  {
    forall p | p in ports && Target(p) > 0 ensures Covered(p, out) {
      ContainerPortCovers(ports, out, p);
    }
    hide NamedApart, Repeats;
    var kept := FirstOfEach(ports, true);
    FirstOfEachHasNoRepeats(ports, true);
    FirstOfEachIsPart(ports, true);
    forall i | 0 <= i < |out| ensures StandsFor(out[i], ports) {
      assert kept[i] in kept && out[i] == Contain(kept[i], out[i].name);
    }
    forall i, j | 0 <= i < j < |out|
      ensures out[i].containerPort != out[j].containerPort || out[i].protocol != out[j].protocol
    {
      assert !SamePair(kept[i], kept[j], true);
    }
  }

  /** ... and under a legal name of its own. */
  lemma ContainerNamesAreDistinct(ports: seq<ServicePort>, out: seq<ContainerPort>)
    requires IsContainerPorts(ports, out)
    ensures forall i | 0 <= i < |out| :: WellShaped(out[i].name)
    ensures forall i, j | 0 <= i < j < |out| :: out[i].name != out[j].name
  {
    var names := ContainerNames(out);
    NamedApartMeansDistinct(FirstOfEach(ports, true), names, true);
    assert forall i | 0 <= i < |out| :: names[i] == out[i].name;
  }

  function ExposedNames(out: seq<ExposedPort>): seq<string>
  {
    seq(|out|, i requires 0 <= i < |out| => out[i].name)
  }

  function Expose(p: ServicePort, name: string): ExposedPort
  {
    ExposedPort(name, p.port, Target(p), Protocol(p), if p.nodePort > 0 then p.nodePort else 0)
  }

  ghost predicate IsServicePorts(ports: seq<ServicePort>, out: seq<ExposedPort>)
  {
    var kept := FirstOfEach(ports, false);
    |out| == |kept| &&
    (forall i | 0 <= i < |out| :: out[i] == Expose(kept[i], out[i].name)) &&
    NamedApart(kept, ExposedNames(out), false)
  }

  /** Where the Service builder stands after the entries in ports. */
  ghost predicate ServiceProgress(
    ports: seq<ServicePort>, out: seq<ExposedPort>, seen: set<string>, names: set<string>)
  {
    IsServicePorts(ports, out) && seen == SeenKeys(FirstOfEach(ports, false), false) &&
    names == NamesBefore(ExposedNames(out), |out|)
  }

  lemma ServiceSkips(
    ports: seq<ServicePort>, p: ServicePort, out: seq<ExposedPort>, seen: set<string>, names: set<string>)
    requires ServiceProgress(ports, out, seen, names)
    requires p.port <= 0 || PairKey(p.port, Protocol(p)) in seen
    ensures ServiceProgress(ports + [p], out, seen, names)
  {
    FirstOfEachStep(ports, p, false);
    FirstOfEachIsPart(ports, false);
    hide NamedApart, Repeats, NamesBefore, FirstOfEach, SeenKeys;
    if p.port > 0 {
      SeenKeysAreExact(FirstOfEach(ports, false), p, false);
    }
  }

  lemma ServiceExtends(
    ports: seq<ServicePort>, p: ServicePort, out: seq<ExposedPort>, seen: set<string>, names: set<string>,
    name: string)
    requires ServiceProgress(ports, out, seen, names)
    requires 0 < p.port <= MAX_INT32 && PairKey(p.port, Protocol(p)) !in seen
    requires IsUniqueName(p.name, p.port, names, name)
    ensures ServiceProgress(
      ports + [p], out + [Expose(p, name)], seen + {PairKey(p.port, Protocol(p))}, names + {name})
  {
    FirstOfEachStep(ports, p, false);
    FirstOfEachIsPart(ports, false);
    hide IsUniqueName, Repeats, NamesBefore, FirstOfEach, SeenKeys;
    SeenKeysAreExact(FirstOfEach(ports, false), p, false);
    NamedApartExtends(FirstOfEach(ports, false), ExposedNames(out), false, p, name);
    assert ExposedNames(out + [Expose(p, name)]) == ExposedNames(out) + [name];
  }

  lemma ServiceStarts()
    ensures ServiceProgress([], [], {}, {})
  {}

  lemma ServiceEnds(ports: seq<ServicePort>, out: seq<ExposedPort>, seen: set<string>, names: set<string>)
    requires ServiceProgress(ports, out, seen, names)
    ensures IsServicePorts(ports, out)
  {}

  method BuildServicePorts(ports: seq<ServicePort>) returns (out: seq<ExposedPort>)
    requires |ports| + 3 < SUFFIX_LIMIT && forall p | p in ports :: InRange(p)
    ensures IsServicePorts(ports, out)
  {
    hide ServiceProgress, IsServicePorts, IsUniqueName, WellShaped, PairKey;
    out := [];
    var seen: set<string> := {};
    var used := new UsedNames();
    ServiceStarts();
    for i := 0 to |ports|
      invariant fresh(used) && |used.names| <= i
      invariant ServiceProgress(ports[..i], out, seen, used.names)
    {
      var p := ports[i];
      assert ports[..i + 1] == ports[..i] + [p] && InRange(p);
      if p.port <= 0 {
        ServiceSkips(ports[..i], p, out, seen, used.names);
        continue;
      }
      var protocol := Protocol(p);
      var key := PairKey(p.port, protocol);
      if key in seen {
        ServiceSkips(ports[..i], p, out, seen, used.names);
        continue;
      }
      ghost var seenBefore, namesBefore := seen, used.names;
      seen := seen + {key};
      var targetPort := if p.targetPort == 0 then p.port else p.targetPort;
      var name := used.UniquePortName(p.name, p.port);
      ServiceExtends(ports[..i], p, out, seenBefore, namesBefore, name);
      out := out + [ExposedPort(name, p.port, targetPort, protocol, if p.nodePort > 0 then p.nodePort else 0)];
    }
    assert ports[..|ports|] == ports;
    ServiceEnds(ports, out, seen, used.names);
  }

  /** A Service's names are legal and distinct, and no port and protocol repeats. */
  lemma ServicePortsAreDistinct(ports: seq<ServicePort>, out: seq<ExposedPort>)
    requires IsServicePorts(ports, out)
    ensures forall i | 0 <= i < |out| :: WellShaped(out[i].name)
    ensures forall i, j | 0 <= i < j < |out| ::
      out[i].name != out[j].name && (out[i].port != out[j].port || out[i].protocol != out[j].protocol)
  {
    var kept, names := FirstOfEach(ports, false), ExposedNames(out);
    NamedApartMeansDistinct(kept, names, false);
    FirstOfEachHasNoRepeats(ports, false);
    assert forall i | 0 <= i < |out| :: names[i] == out[i].name;
    forall i, j | 0 <= i < j < |out|
      ensures out[i].port != out[j].port || out[i].protocol != out[j].protocol
    {
      assert !SamePair(kept[i], kept[j], false);
    }
  }

  // ---------- The two builders, by number and protocol ----------

  /** The container ports, in order, are those of the entries with a positive target whose target and
      protocol no earlier entry has; the target is the entry's port when it gives none, the protocol TCP. */
  lemma ContainerPortsByNumber(ports: seq<ServicePort>, out: seq<ContainerPort>) returns (at: seq<nat>)
    requires IsContainerPorts(ports, out)
    ensures AreFirsts(ports, at, true) && |at| == |out|
    ensures forall i | 0 <= i < |out| ::
      var p := ports[at[i]];
      out[i].containerPort == (if p.targetPort == 0 then p.port else p.targetPort) &&
      out[i].protocol == if p.protocol == "" then "TCP" else p.protocol
  {
    at := FirstOfEachIsFirst(ports, true);
    assert Picks(ports, at, FirstOfEach(ports, true));
    hide FirstOfEach, NamedApart, SamePair, StandsIn;
  }

  /** The Service ports, in order, are those of the entries with a positive port whose port and protocol
      no earlier entry has, each with its target and a node port if it has one. */
  lemma ServicePortsByNumber(ports: seq<ServicePort>, out: seq<ExposedPort>) returns (at: seq<nat>)
    requires IsServicePorts(ports, out)
    ensures AreFirsts(ports, at, false) && |at| == |out|
    ensures forall i | 0 <= i < |out| ::
      var p := ports[at[i]];
      out[i].port == p.port && out[i].targetPort == (if p.targetPort == 0 then p.port else p.targetPort) &&
      out[i].protocol == (if p.protocol == "" then "TCP" else p.protocol) &&
      out[i].nodePort == if p.nodePort > 0 then p.nodePort else 0
  {
    at := FirstOfEachIsFirst(ports, false);
    assert Picks(ports, at, FirstOfEach(ports, false));
    hide FirstOfEach, NamedApart, SamePair, StandsIn;
  }

  // ---------- Validation ----------

  datatype NameError = TooLong | BadShape | NoLetter

  /** validatePortName. */
  function ValidatePortName(name: string): Option<NameError>
  {
    if |name| > MAX_NAME_LENGTH then Some(TooLong)
    else if !(name != "" && IsAlphanumeric(name[0]) && IsAlphanumeric(name[|name| - 1]) &&
              forall c | c in name :: IsNameChar(c)) then Some(BadShape)
    else if !HasLetter(name) then Some(NoLetter)
    else None
  }

  /** portNumber, on the whole numbers a decoded document can hold. */
  function PortNumber(v: Option<Value>): Option<nat>
  {
    match v
    case Some(Number(n)) => if 1 <= n <= 65535 then Some(n) else None
    case _ => None
  }

  function Field(m: Fields, key: string): Option<Value>
  {
    if key in m then Some(m[key]) else None
  }

  function RawProtocol(m: Fields): string
  {
    if GetString(m, "protocol") == "" then "TCP" else GetString(m, "protocol")
  }

  /** A field that may be left out or null, and must otherwise be a port number. */
  predicate OptionalNumber(m: Fields, key: string)
  {
    key !in m || m[key] == Null || PortNumber(Some(m[key])).Some?
  }

  /** One entry, checked on its own. */
  predicate EntryAccepted(v: Value, alone: bool)
  {
    v.Dict? &&
    var m := v.fields;
    var name := GetString(m, "name");
    (if name == "" then alone else ValidatePortName(name).None?) &&
    PortNumber(Field(m, "port")).Some? &&
    RawProtocol(m) in {"TCP", "UDP", "SCTP"} &&
    OptionalNumber(m, "targetPort") && OptionalNumber(m, "nodePort") &&
    ("nodePort" in m && m["nodePort"] != Null ==> 30000 <= m["nodePort"].n <= 32767)
  }

  /** Two accepted entries that may stand in one list. */
  predicate Compatible(v: Value, w: Value)
    requires v.Dict? && w.Dict?
  {
    (GetString(v.fields, "name") != "" ==> GetString(v.fields, "name") != GetString(w.fields, "name")) &&
    (PortNumber(Field(v.fields, "port")) != PortNumber(Field(w.fields, "port")) ||
     RawProtocol(v.fields) != RawProtocol(w.fields))
  }

  ghost predicate AllAccepted(raw: seq<Value>, alone: bool)
  {
    forall i | 0 <= i < |raw| :: EntryAccepted(raw[i], alone)
  }

  ghost predicate PairwiseCompatible(raw: seq<Value>)
    requires forall v | v in raw :: v.Dict?
  {
    forall i, j | 0 <= i < j < |raw| :: Compatible(raw[i], raw[j])
  }

  ghost predicate ListAccepted(raw: seq<Value>)
  {
    AllAccepted(raw, |raw| <= 1) && PairwiseCompatible(raw)
  }

  function Name(v: Value): string
    requires v.Dict?
  {
    GetString(v.fields, "name")
  }

  function RawKey(v: Value): string
    requires EntryAccepted(v, true)
  {
    PairKey(PortNumber(Field(v.fields, "port")).value, RawProtocol(v.fields))
  }

  /** The names and the pair texts of the entries checked so far. */
  ghost predicate Recorded(raw: seq<Value>, names: map<string, nat>, keys: map<string, nat>)
    requires AllAccepted(raw, true)
  {
    (forall v | v in raw :: EntryAccepted(v, true)) &&
    names.Keys == (set v | v in raw && Name(v) != "" :: Name(v)) &&
    keys.Keys == set v | v in raw :: RawKey(v)
  }

  /** One more entry keeps the list compatible exactly when neither its name nor its pair
      text is on record. */
  lemma CompatibleExtends(raw: seq<Value>, v: Value, names: map<string, nat>, keys: map<string, nat>)
    requires AllAccepted(raw, true) && EntryAccepted(v, true)
    requires Recorded(raw, names, keys) && PairwiseCompatible(raw)
    ensures PairwiseCompatible(raw + [v]) <==>
            (Name(v) == "" || Name(v) !in names) && RawKey(v) !in keys
  {
    var all := raw + [v];
    forall i | 0 <= i < |raw|
      ensures Compatible(raw[i], v) <==>
              (Name(raw[i]) == "" || Name(raw[i]) != Name(v)) && RawKey(raw[i]) != RawKey(v)
    {
      assert EntryAccepted(raw[i], true);
      if RawKey(raw[i]) == RawKey(v) {
        PairKeyInjective(PortNumber(Field(raw[i].fields, "port")).value, RawProtocol(raw[i].fields),
                         PortNumber(Field(v.fields, "port")).value, RawProtocol(v.fields));
      }
    }
    if PairwiseCompatible(all) {
      forall i | 0 <= i < |raw| ensures Compatible(raw[i], v) {
        assert Compatible(all[i], all[|raw|]);
      }
    }
    if (Name(v) == "" || Name(v) !in names) && RawKey(v) !in keys {
      forall i, j | 0 <= i < j < |all| ensures Compatible(all[i], all[j]) {
        if j < |raw| {
          assert Compatible(raw[i], raw[j]);
        } else {
          assert raw[i] in raw;
        }
      }
    }
  }

  lemma AcceptedAlone(v: Value, alone: bool)
    requires EntryAccepted(v, alone)
    ensures EntryAccepted(v, true) && v.Dict?
  {}

  lemma RejectedPrefix(raw: seq<Value>, n: nat)
    requires n <= |raw| && AllAccepted(raw[..n], true) && !PairwiseCompatible(raw[..n])
    ensures !ListAccepted(raw)
  {
    var i, j :| 0 <= i < j < n && !Compatible(raw[..n][i], raw[..n][j]);
    assert AllAccepted(raw, |raw| <= 1) ==> EntryAccepted(raw[i], |raw| <= 1) && EntryAccepted(raw[j], |raw| <= 1);
    assert !Compatible(raw[i], raw[j]);
  }

  /** The entries in raw passed every check of a list whose length is 1 exactly if alone. */
  ghost predicate Checked(raw: seq<Value>, alone: bool, names: map<string, nat>, keys: map<string, nat>)
  {
    AllAccepted(raw, alone) && AllAccepted(raw, true) && Recorded(raw, names, keys) && PairwiseCompatible(raw)
  }

  lemma CheckedExtends(raw: seq<Value>, v: Value, alone: bool, names: map<string, nat>, keys: map<string, nat>, i: nat)
    requires Checked(raw, alone, names, keys) && EntryAccepted(v, alone)
    ensures EntryAccepted(v, true) && v.Dict? && AllAccepted(raw + [v], true)
    ensures (Name(v) != "" && Name(v) in names) || RawKey(v) in keys ==> !PairwiseCompatible(raw + [v])
    ensures !(Name(v) != "" && Name(v) in names) && RawKey(v) !in keys ==>
      Checked(raw + [v], alone, if Name(v) == "" then names else names[Name(v) := i], keys[RawKey(v) := i])
  {
    AcceptedAlone(v, alone);
    assert forall w | w in raw :: EntryAccepted(w, true);
    CompatibleExtends(raw, v, names, keys);
  }

  /** validateServicePorts: the index of the first offending entry, or None. */
  /** The entries before i pass every check together, those up to i do not. */
  ghost predicate FirstRejected(raw: seq<Value>, i: nat)
  {
    i < |raw| && AllAccepted(raw[..i], |raw| <= 1) && PairwiseCompatible(raw[..i]) &&
    !(AllAccepted(raw[..i + 1], |raw| <= 1) && PairwiseCompatible(raw[..i + 1]))
  }

  lemma RejectedAt(raw: seq<Value>, i: nat, names: map<string, nat>, keys: map<string, nat>)
    requires i < |raw| && Checked(raw[..i], |raw| <= 1, names, keys)
    requires !EntryAccepted(raw[i], |raw| <= 1) || !PairwiseCompatible(raw[..i + 1])
    ensures FirstRejected(raw, i)
  {
    assert raw[..i + 1][i] == raw[i];
    hide EntryAccepted, PairwiseCompatible, Recorded;
  }

  method ValidateServicePorts(service: Option<Fields>) returns (offender: Option<nat>)
    ensures offender.None? <==> service.None? || ListAccepted(GetList(service.value, "ports"))
    ensures offender.Some? ==> service.Some? && FirstRejected(GetList(service.value, "ports"), offender.value)
  {
    hide Checked, EntryAccepted, Compatible, PairKey, RawKey, FirstRejected;
    offender := None;
    if service.None? {
      return;
    }
    var raw := GetList(service.value, "ports");
    var seenNames: map<string, nat> := map[];
    var seenPorts: map<string, nat> := map[];
    CheckedStarts(|raw| <= 1);
    for i := 0 to |raw|
      invariant Checked(raw[..i], |raw| <= 1, seenNames, seenPorts)
    {
      var v := raw[i];
      assert raw[..i + 1] == raw[..i] + [v];
      if !EntryAccepted(v, |raw| <= 1) {
        RejectedAt(raw, i, seenNames, seenPorts);
        return Some(i);
      }
      CheckedExtends(raw[..i], v, |raw| <= 1, seenNames, seenPorts, i);
      if (Name(v) != "" && Name(v) in seenNames) || RawKey(v) in seenPorts {
        RejectedPrefix(raw, i + 1);
        RejectedAt(raw, i, seenNames, seenPorts);
        return Some(i);
      }
      if Name(v) != "" {
        seenNames := seenNames[Name(v) := i];
      }
      seenPorts := seenPorts[RawKey(v) := i];
    }
    assert raw[..|raw|] == raw;
    CheckedEnds(raw, seenNames, seenPorts);
  }

  lemma CheckedStarts(alone: bool)
    ensures Checked([], alone, map[], map[])
  {}

  lemma CheckedEnds(raw: seq<Value>, names: map<string, nat>, keys: map<string, nat>)
    requires Checked(raw, |raw| <= 1, names, keys)
    ensures ListAccepted(raw)
  {}

  // ---------- Validated lists pass the repair unchanged ----------

  /** The typed entry the operator decodes. */
  function Decode(m: Fields): ServicePort
  {
    ServicePort(GetString(m, "name"), NumberOr0(m, "port"), GetString(m, "protocol"),
                NumberOr0(m, "targetPort"), NumberOr0(m, "nodePort"))
  }

  function NumberOr0(m: Fields, key: string): int
  {
    if key in m && m[key].Number? then m[key].n else 0
  }

  function DecodeAll(raw: seq<Value>): (ports: seq<ServicePort>)
    requires forall v | v in raw :: v.Dict?
    ensures |ports| == |raw| && forall i | 0 <= i < |raw| :: ports[i] == Decode(raw[i].fields)
  {
    seq(|raw|, i requires 0 <= i < |raw| => Decode(raw[i].fields))
  }

  predicate DecodesTo(v: Value, p: ServicePort)
  {
    v.Dict? && p == Decode(v.fields) &&
    1 <= p.port <= 65535 && PortNumber(Field(v.fields, "port")) == Some(p.port) &&
    Protocol(p) == RawProtocol(v.fields) && p.nodePort >= 0 &&
    (p.name != "" ==> WellShaped(p.name) && HasLetter(p.name))
  }

  lemma AcceptedDecodes(v: Value, alone: bool)
    requires EntryAccepted(v, alone)
    ensures DecodesTo(v, Decode(v.fields)) && (alone || Decode(v.fields).name != "")
  {}

  lemma UnnamedIsNamedAfterPort(port: nat, name: string)
    requires port <= MAX_INT32 && IsUniqueName("", port, {}, name)
    ensures name == "p-" + Decimal(port)
  {
    FallbackLength(port);
    assert Clean("") == "";
  }

  /** A validated list decodes to entries none of which repeats a pair or a name. */
  lemma ValidatedIsDistinct(raw: seq<Value>)
    requires ListAccepted(raw)
    ensures var ports := DecodeAll(raw);
      (forall i | 0 <= i < |raw| :: DecodesTo(raw[i], ports[i]) && (|raw| <= 1 || ports[i].name != "")) &&
      FirstOfEach(ports, false) == ports &&
      forall i, j | 0 <= i < j < |raw| :: ports[i].name != ports[j].name
  {
    var ports := DecodeAll(raw);
    forall i | 0 <= i < |raw|
      ensures DecodesTo(raw[i], ports[i]) && (|raw| <= 1 || ports[i].name != "")
    {
      assert EntryAccepted(raw[i], |raw| <= 1);
      AcceptedDecodes(raw[i], |raw| <= 1);
    }
    hide EntryAccepted;
    forall i, j | 0 <= i < j < |raw|
      ensures !SamePair(ports[i], ports[j], false) && ports[i].name != ports[j].name
    {
      assert Compatible(raw[i], raw[j]);
      assert DecodesTo(raw[i], ports[i]) && DecodesTo(raw[j], ports[j]);
    }
    FirstOfEachKeepsDistinct(ports, false);
  }

  /** The Service entry for a validated one: its port, protocol, target and node port, under
      the name it was given; an unnamed entry is named after its port. */
  predicate Carries(v: Value, e: ExposedPort)
  {
    v.Dict? &&
    var m := v.fields;
    PortNumber(Field(m, "port")) == Some(e.port) && e.port >= 0 &&
    e.protocol == RawProtocol(m) &&
    e.nodePort == NumberOr0(m, "nodePort") &&
    e.targetPort == (if NumberOr0(m, "targetPort") == 0 then e.port else NumberOr0(m, "targetPort")) &&
    e.name == if GetString(m, "name") == "" then "p-" + Decimal(e.port) else GetString(m, "name")
  }

  lemma ExposedCarries(v: Value, p: ServicePort, name: string)
    requires DecodesTo(v, p)
    requires name == if p.name == "" then "p-" + Decimal(p.port) else p.name
    ensures Carries(v, Expose(p, name))
  {}

  lemma ValidatedNamesAreKept(ports: seq<ServicePort>, names: seq<string>)
    requires NamedApart(ports, names, false)
    requires forall i | 0 <= i < |ports| :: 0 <= ports[i].port <= MAX_INT32
    requires forall i | 0 <= i < |ports| ::
      if ports[i].name == "" then |ports| <= 1 else WellShaped(ports[i].name) && HasLetter(ports[i].name)
    requires forall i, j | 0 <= i < j < |ports| :: ports[i].name != ports[j].name
    ensures forall i | 0 <= i < |ports| ::
      names[i] == if ports[i].name == "" then "p-" + Decimal(ports[i].port) else ports[i].name
  {
    if |ports| == 1 && ports[0].name == "" {
      assert NamedAt(ports, names, false, 0);
      UnnamedIsNamedAfterPort(ports[0].port, names[0]);
    } else {
      LegalNamesAreKept(ports, names, false, |ports|);
    }
  }

  /** If the API accepted a list, the operator's Service carries every entry, in order. */
  lemma RepairKeepsValidated(raw: seq<Value>, out: seq<ExposedPort>)
    requires ListAccepted(raw) && IsServicePorts(DecodeAll(raw), out)
    ensures |out| == |raw| && forall i | 0 <= i < |raw| :: Carries(raw[i], out[i])
  {
    hide NamedApart, FirstOfEach, EntryAccepted, Compatible, Carries;
    ValidatedIsDistinct(raw);
    var ports, names := DecodeAll(raw), ExposedNames(out);
    assert forall i | 0 <= i < |raw| :: DecodesTo(raw[i], ports[i]);
    ValidatedNamesAreKept(ports, names);
    forall i | 0 <= i < |raw| ensures Carries(raw[i], out[i]) {
      assert out[i] == Expose(ports[i], names[i]);
      ExposedCarries(raw[i], ports[i], names[i]);
    }
  }

  // ---------- What the repair leaves alone, validation accepts ----------

  /** The numbers and the protocol of an entry are what Kubernetes takes. */
  predicate NumbersFit(v: Value)
  {
    v.Dict? &&
    var m := v.fields;
    "port" in m && m["port"].Number? && 1 <= m["port"].n <= 65535 &&
    GetString(m, "protocol") in {"", "TCP", "UDP", "SCTP"} &&
    ("targetPort" in m && m["targetPort"] != Null ==> m["targetPort"].Number? && 1 <= m["targetPort"].n <= 65535) &&
    ("nodePort" in m && m["nodePort"] != Null ==> m["nodePort"].Number? && 30000 <= m["nodePort"].n <= 32767)
  }

  lemma NameIsValid(name: string)
    ensures ValidatePortName(name).None? <==> WellShaped(name) && HasLetter(name)
  {}

  lemma EntryIsAccepted(v: Value, alone: bool)
    ensures EntryAccepted(v, alone) <==>
      NumbersFit(v) && (if NameGiven(v) == "" then alone else WellShaped(NameGiven(v)) && HasLetter(NameGiven(v)))
  {
    NameIsValid(NameGiven(v));
    hide ValidatePortName, WellShaped, HasLetter;
  }

  function NameGiven(v: Value): string { if v.Dict? then GetString(v.fields, "name") else "" }

  lemma NoPlainLetter(name: string, k: nat)
    requires WellShaped(name) && !HasLetter(name) && k < |name|
    ensures !IsPlainLetter(name[k])
  {
    assert name[k] in name;
  }

  lemma StretchOfDigits(name: string, port: nat)
    requires port <= MAX_INT32 && WellShaped(name) && !HasLetter(name)
    ensures SanitizePortName(name, port) == "p-" + Decimal(port)
  {
    hide SanitizePortName, WellShaped, HasLetter, IsPlainLetter, Decimal;
    var i, j := SanitizedIsStretch(name, port);
    forall k | i <= k < j ensures !IsPlainLetter(name[k]) { NoPlainLetter(name, k); }
  }

  lemma CandidateOfLetterHasOne(base: string, k: nat)
    requires k < SUFFIX_LIMIT && WellShaped(base) && IsLetter(base[0])
    ensures HasLetter(Candidate(base, k))
  {
    var j := CandidateIsCut(base, k);
    assert Candidate(base, k)[0] == base[0];
    hide Candidate;
  }

  /** A legal name that the repair gave back as it was holds a letter. */
  lemma KeptNameHasLetter(name: string, port: nat, used: set<string>)
    requires port <= MAX_INT32 && IsUniqueName(name, port, used, name)
    ensures HasLetter(name)
  {
    UniqueNameIsFreshAndWellShaped(name, port, used, name);
    SanitizedIsWellShaped(name, port);
    if !HasLetter(name) {
      StretchOfDigits(name, port);
      var base := SanitizePortName(name, port);
      var k: nat :| 2 <= k <= |used| + 2 && k < SUFFIX_LIMIT && name == Candidate(base, k);
      CandidateOfLetterHasOne(base, k);
    }
    hide SanitizePortName, Candidate;
  }

  lemma CarriedIsCompatible(v: Value, w: Value, e: ExposedPort, f: ExposedPort)
    requires Carries(v, e) && Carries(w, f) && e.name != f.name && (e.port != f.port || e.protocol != f.protocol)
    ensures Compatible(v, w)
  {}

  /** An entry that comes out under the name it was given has a legal one. */
  lemma GivenNameIsLegal(ports: seq<ServicePort>, out: seq<ExposedPort>, i: nat)
    requires IsServicePorts(ports, out) && |out| == |ports| && i < |ports| && out[i].name == ports[i].name
    ensures WellShaped(ports[i].name) && HasLetter(ports[i].name)
  {
    ServicePortsAreDistinct(ports, out);
    AllAreKept(ports, FirstOfEach(ports, false));
    assert NamedAt(ports, ExposedNames(out), false, i);
    hide IsServicePorts, WellShaped, HasLetter, FirstOfEach, IsUniqueName, NamedApart, SamePair;
    KeptNameHasLetter(ports[i].name, Exposed(ports[i], false), NamesBefore(ExposedNames(out), i));
  }

  lemma CarriedName(v: Value, e: ExposedPort)
    requires Carries(v, e) && NameGiven(v) != ""
    ensures e.name == NameGiven(v) && Decode(v.fields).name == NameGiven(v)
  {}

  lemma CarriedIsAccepted(raw: seq<Value>, out: seq<ExposedPort>, i: nat)
    requires forall v | v in raw :: v.Dict? && NumbersFit(v)
    requires IsServicePorts(DecodeAll(raw), out)
    requires |out| == |raw| && i < |raw| && Carries(raw[i], out[i]) && (|raw| > 1 ==> NameGiven(raw[i]) != "")
    ensures EntryAccepted(raw[i], |raw| <= 1)
  {
    hide EntryAccepted, WellShaped, HasLetter, IsServicePorts, NumbersFit, Carries;
    assert raw[i] in raw;
    EntryIsAccepted(raw[i], |raw| <= 1);
    if NameGiven(raw[i]) != "" {
      CarriedName(raw[i], out[i]);
      GivenNameIsLegal(DecodeAll(raw), out, i);
    }
  }

  /** Entries are only ever dropped, so as many are all. */
  lemma {:induction false} AllAreKept(ports: seq<ServicePort>, kept: seq<ServicePort>)
    requires kept == FirstOfEach(ports, false)
    ensures |kept| <= |ports| && (|kept| == |ports| ==> kept == ports)
  {
    if ports != [] { AllAreKept(ports[..|ports| - 1], FirstOfEach(ports[..|ports| - 1], false)); }
  }

  /** Of the lists whose numbers and protocols fit, the API accepts exactly those that the operator's
      repair leaves alone, each entry named if there are several. */
  lemma AcceptedExactlyWhenRepairKeeps(raw: seq<Value>, out: seq<ExposedPort>)
    requires forall v | v in raw :: v.Dict? && NumbersFit(v)
    requires IsServicePorts(DecodeAll(raw), out)
    ensures ListAccepted(raw) <==>
      |out| == |raw| && (forall i | 0 <= i < |raw| :: Carries(raw[i], out[i])) &&
      (|raw| > 1 ==> forall i | 0 <= i < |raw| :: NameGiven(raw[i]) != "")
  {
    if ListAccepted(raw) {
      RepairKeepsValidated(raw, out);
      forall i | 0 <= i < |raw| && |raw| > 1 ensures NameGiven(raw[i]) != "" {
        assert EntryAccepted(raw[i], false);
        EntryIsAccepted(raw[i], false);
      }
    }
    if |out| == |raw| && (forall i | 0 <= i < |raw| :: Carries(raw[i], out[i])) &&
      (|raw| > 1 ==> forall i | 0 <= i < |raw| :: NameGiven(raw[i]) != "")
    {
      ServicePortsAreDistinct(DecodeAll(raw), out);
      forall i | 0 <= i < |raw| ensures EntryAccepted(raw[i], |raw| <= 1) { CarriedIsAccepted(raw, out, i); }
      forall i, j | 0 <= i < j < |raw| ensures Compatible(raw[i], raw[j]) {
        CarriedIsCompatible(raw[i], raw[j], out[i], out[j]);
      }
    }
    hide EntryAccepted, Compatible, Carries, IsServicePorts, NumbersFit;
  }
}
