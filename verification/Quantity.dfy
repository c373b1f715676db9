/** CPU and memory amounts as they are printed and read back, and the totals summed from them. */
module Quantity {
  import opened Json
  import opened Text

  // ---------- Printing and parsing ----------

  /** strconv.ParseInt with its error dropped: what is not a number reads as zero. */
  function ParseInt(s: string): int
  {
    if s == "" then 0
    else if s[0] == '-' && s[1..] != "" && AllDigits(s[1..]) then 0 - ParseDecimal(s[1..])
    else if s[0] == '+' && s[1..] != "" && AllDigits(s[1..]) then ParseDecimal(s[1..])
    else if AllDigits(s) then ParseDecimal(s)
    else 0
  }

  function FormatInt(n: int): string { if n < 0 then "-" + Decimal(-n) else Decimal(n) }

  lemma ParseUndoesFormat(n: int)
    ensures ParseInt(FormatInt(n)) == n
  {
    if n < 0 {
      ParseUndoesDecimal(-n);
      assert FormatInt(n)[1..] == Decimal(-n);
    } else {
      ParseUndoesDecimal(n);
      assert FormatInt(n)[0] in FormatInt(n);
    }
  }

  const MILLI := 1_000_000
  const CORE := 1_000_000_000
  const KI := 1024
  const MI := 1024 * 1024
  const GI := 1024 * 1024 * 1024

  function ParseCPUNano(s: string): int
  {
    if s == "" then 0
    else if |s| > 1 && s[|s| - 1] == 'n' then ParseInt(s[..|s| - 1])
    else if |s| > 1 && s[|s| - 1] == 'm' then ParseInt(s[..|s| - 1]) * MILLI
    else ParseInt(s) * CORE
  }

  /** Integer division truncates towards zero. */
  function Truncate(n: int, unit: int): int
    requires unit > 0
  {
    if n < 0 then -(-n / unit) else n / unit
  }

  function FormatCPUNano(n: int): string
  {
    if n == 0 then "0"
    else if n < MILLI then FormatInt(n) + "n"
    else FormatInt(Truncate(n, MILLI)) + "m"
  }

  function ParseMemBytes(s: string): int
  {
    if s == "" then 0
    else if |s| > 2 && HasSuffix(s, "Ki") then ParseInt(s[..|s| - 2]) * KI
    else if |s| > 2 && HasSuffix(s, "Mi") then ParseInt(s[..|s| - 2]) * MI
    else if |s| > 2 && HasSuffix(s, "Gi") then ParseInt(s[..|s| - 2]) * GI
    else ParseInt(s)
  }

  function FormatMemBytes(b: int): string
  {
    if b == 0 then "0"
    else if b >= GI then FormatInt(Truncate(b, GI)) + "Gi"
    else if b >= MI then FormatInt(Truncate(b, MI)) + "Mi"
    else if b >= KI then FormatInt(Truncate(b, KI)) + "Ki"
    else FormatInt(b)
  }

  /** The unit an amount is printed in. */
  function CPUUnit(n: int): int { if n < MILLI then 1 else MILLI }

  function MemUnit(b: int): int { if b >= GI then GI else if b >= MI then MI else if b >= KI then KI else 1 }

  /** Rounded down to a multiple of the unit. */
  function Floor(n: nat, unit: int): nat
    requires unit > 0
  {
    n / unit * unit
  }

  lemma FormatIntIsNotEmpty(n: int)
    ensures FormatInt(n) != ""
  {}

  lemma SuffixReads(n: int, suffix: string)
    ensures var s := FormatInt(n) + suffix;
      |s| > |suffix| && s[..|s| - |suffix|] == FormatInt(n) && s[|s| - |suffix|..] == suffix
  {
    FormatIntIsNotEmpty(n);
    var s := FormatInt(n) + suffix;
    assert s[..|FormatInt(n)|] == FormatInt(n);
  }

  /** A printed CPU amount reads back rounded down to its unit, so it never exceeds the original
      and loses less than the unit: nothing below a millicore. */
  lemma CPURoundTrip(n: nat)
    ensures ParseCPUNano(FormatCPUNano(n)) == Floor(n, CPUUnit(n))
    ensures 0 <= n - ParseCPUNano(FormatCPUNano(n)) < CPUUnit(n)
  {
    if n == 0 {
      ZeroReads();
    } else if n < MILLI {
      SuffixReads(n, "n");
      ParseUndoesFormat(n);
    } else {
      SuffixReads(n / MILLI, "m");
      ParseUndoesFormat(n / MILLI);
    }
    hide ParseInt, FormatInt;
  }

  lemma ZeroReads()
    ensures ParseInt("0") == 0
  {
    ParseUndoesFormat(0);
    assert FormatInt(0) == "0";
  }

  lemma PlainReads(b: nat)
    ensures ParseMemBytes(FormatInt(b)) == b
  {
    ParseUndoesFormat(b);
    var s := FormatInt(b);
    FormatIntIsNotEmpty(b);
    assert s[|s| - 1] in s;
    if |s| > 2 {
      assert s[|s| - 2..][1] == s[|s| - 1];
    }
    hide ParseInt;
  }

  lemma SuffixesDiffer(s: string)
    ensures !(HasSuffix(s, "Ki") && HasSuffix(s, "Mi")) && !(HasSuffix(s, "Ki") && HasSuffix(s, "Gi"))
    ensures !(HasSuffix(s, "Mi") && HasSuffix(s, "Gi"))
  {
    assert "Ki"[0] != "Mi"[0] && "Ki"[0] != "Gi"[0] && "Mi"[0] != "Gi"[0];
  }

  lemma UnitReads(n: nat, suffix: string)
    requires suffix in {"Ki", "Mi", "Gi"}
    ensures ParseMemBytes(FormatInt(n) + suffix) == n * if suffix == "Ki" then KI else if suffix == "Mi" then MI else GI
  {
    SuffixReads(n, suffix);
    ParseUndoesFormat(n);
    SuffixesDiffer(FormatInt(n) + suffix);
    hide ParseInt, FormatInt;
  }

  /** A printed memory amount reads back rounded down to its unit. */
  lemma MemRoundTrip(b: nat)
    ensures ParseMemBytes(FormatMemBytes(b)) == Floor(b, MemUnit(b))
    ensures 0 <= b - ParseMemBytes(FormatMemBytes(b)) < MemUnit(b)
  {
    hide ParseInt, FormatInt, ParseMemBytes;
    if b >= GI {
      UnitReads(b / GI, "Gi");
    } else if b >= MI {
      UnitReads(b / MI, "Mi");
    } else if b >= KI {
      UnitReads(b / KI, "Ki");
    } else if b > 0 {
      PlainReads(b);
    } else {
      PlainReads(0);
      assert FormatInt(0) == "0" by { ZeroPrints(); }
    }
  }

  lemma ZeroPrints()
    ensures FormatInt(0) == "0"
  {}

  lemma PlainDigits(n: nat)
    ensures ParseInt(Decimal(n)) == n && Decimal(n) == FormatInt(n) && IsDigit(Decimal(n)[|Decimal(n)| - 1])
  {
    ParseUndoesFormat(n);
    assert Decimal(n)[|Decimal(n)| - 1] in Decimal(n);
  }

  /** A sign may come first, and anything but digits behind it reads as zero. */
  lemma NumbersRead(n: nat, s: string)
    ensures ParseInt("-" + Decimal(n)) == 0 - n && ParseInt("+" + Decimal(n)) == n
    ensures (exists i | 0 <= i < |s| :: !IsDigit(s[i]) && (i > 0 || s[0] !in "+-")) ==> ParseInt(s) == 0
  {
    assert ("-" + Decimal(n))[1..] == Decimal(n) && ("+" + Decimal(n))[1..] == Decimal(n);
    PlainDigits(n);
    ParseUndoesDecimal(n);
    if i :| 0 <= i < |s| && !IsDigit(s[i]) && (i > 0 || s[0] !in "+-") {
      assert s[i] in s && (i > 0 ==> s[1..][i - 1] == s[i]);
    }
    hide Decimal, ParseDecimal;
  }

  /** What each suffix of a CPU amount stands for. */
  lemma CPUAmountsRead(n: nat)
    ensures ParseCPUNano(Decimal(n) + "n") == n && ParseCPUNano(Decimal(n) + "m") == n * 1_000_000
    ensures ParseCPUNano(Decimal(n)) == n * 1_000_000_000
  {
    PlainDigits(n);
    hide ParseInt, Decimal, FormatInt;
    SuffixReads(n, "n");
    SuffixReads(n, "m");
  }

  lemma MemSuffixReads(n: nat, suffix: string, unit: int)
    requires (suffix == "Ki" && unit == 1024) || (suffix == "Mi" && unit == 1_048_576) || (suffix == "Gi" && unit == 1_073_741_824)
    ensures ParseMemBytes(Decimal(n) + suffix) == n * unit
  {
    PlainDigits(n);
    hide ParseInt, Decimal, FormatInt;
    SuffixReads(n, suffix);
  }

  /** What each suffix of a memory amount stands for. */
  lemma MemAmountsRead(n: nat)
    ensures ParseMemBytes(Decimal(n)) == n && ParseMemBytes(Decimal(n) + "Ki") == n * 1024
    ensures ParseMemBytes(Decimal(n) + "Mi") == n * 1_048_576 && ParseMemBytes(Decimal(n) + "Gi") == n * 1_073_741_824
  {
    PlainDigits(n);
    PlainReads(n);
    MemSuffixReads(n, "Ki", 1024);
    MemSuffixReads(n, "Mi", 1_048_576);
    MemSuffixReads(n, "Gi", 1_073_741_824);
    hide ParseMemBytes, Decimal, FormatInt;
  }

  /** An amount is printed in the largest unit it reaches, CPU at most in millicores. */
  lemma AmountsPrint(n: nat)
    ensures FormatCPUNano(n) == if n == 0 then "0" else if n < 1_000_000 then Decimal(n) + "n" else Decimal(n / 1_000_000) + "m"
    ensures FormatMemBytes(n) ==
      if n < 1024 then Decimal(n)
      else if n < 1_048_576 then Decimal(n / 1024) + "Ki"
      else if n < 1_073_741_824 then Decimal(n / 1_048_576) + "Mi"
      else Decimal(n / 1_073_741_824) + "Gi"
  {}

  // ---------- Totals over pods ----------

  datatype Container = Container(cpu: string, memory: string)

  datatype Pod = Pod(name: string, containers: seq<Container>)

  datatype Usage = Usage(cpu: string, memory: string)

  function CPUOf(cs: seq<Container>): int
  {
    if cs == [] then 0 else CPUOf(cs[..|cs| - 1]) + ParseCPUNano(cs[|cs| - 1].cpu)
  }

  function MemOf(cs: seq<Container>): int
  {
    if cs == [] then 0 else MemOf(cs[..|cs| - 1]) + ParseMemBytes(cs[|cs| - 1].memory)
  }

  function UsageOf(p: Pod): Usage { Usage(FormatCPUNano(CPUOf(p.containers)), FormatMemBytes(MemOf(p.containers))) }

  /** What is kept under a name: of items that share it, the last. */
  function LastNamed(items: seq<Pod>, name: string): Option<Pod>
  {
    if items == [] then None
    else if items[|items| - 1].name == name then Some(items[|items| - 1])
    else LastNamed(items[..|items| - 1], name)
  }

  ghost predicate Measures(metrics: map<string, Usage>, items: seq<Pod>)
  {
    forall n :: (if n in metrics then Some(metrics[n]) else None) ==
      if LastNamed(items, n).Some? then Some(UsageOf(LastNamed(items, n).value)) else None
  }

  method SumContainers(cs: seq<Container>) returns (cpu: int, mem: int)
    ensures cpu == CPUOf(cs) && mem == MemOf(cs)
  {
    cpu, mem := 0, 0;
    for i := 0 to |cs|
      invariant cpu == CPUOf(cs[..i]) && mem == MemOf(cs[..i])
    {
      assert cs[..i + 1][..i] == cs[..i];
      cpu := cpu + ParseCPUNano(cs[i].cpu);
      mem := mem + ParseMemBytes(cs[i].memory);
    }
    assert cs[..|cs|] == cs;
  }

  method GetPodMetrics(items: seq<Pod>) returns (metrics: map<string, Usage>)
    ensures Measures(metrics, items)
  {
    metrics := map[];
    for i := 0 to |items|
      invariant Measures(metrics, items[..i])
    {
      assert items[..i + 1][..i] == items[..i];
      var cpu, mem := SumContainers(items[i].containers);
      hide FormatCPUNano, FormatMemBytes;
      metrics := metrics[items[i].name := Usage(FormatCPUNano(cpu), FormatMemBytes(mem))];
    }
    assert items[..|items|] == items;
  }

  /** The app's total, summed from the printed amounts of its pods that have metrics. */
  method SumUsage(pods: seq<string>, metrics: map<string, Usage>) returns (cpu: int, mem: int)
    ensures cpu == ShownCPU(pods, metrics) && mem == ShownMem(pods, metrics)
  {
    cpu, mem := 0, 0;
    for i := 0 to |pods|
      invariant cpu == ShownCPU(pods[..i], metrics) && mem == ShownMem(pods[..i], metrics)
    {
      assert pods[..i + 1][..i] == pods[..i];
      if pods[i] in metrics {
        cpu := cpu + ParseCPUNano(metrics[pods[i]].cpu);
        mem := mem + ParseMemBytes(metrics[pods[i]].memory);
      }
    }
    assert pods[..|pods|] == pods;
  }

  function ShownCPU(pods: seq<string>, metrics: map<string, Usage>): int
  {
    if pods == [] then 0
    else
      var p := pods[|pods| - 1];
      ShownCPU(pods[..|pods| - 1], metrics) + if p in metrics then ParseCPUNano(metrics[p].cpu) else 0
  }

  function ShownMem(pods: seq<string>, metrics: map<string, Usage>): int
  {
    if pods == [] then 0
    else
      var p := pods[|pods| - 1];
      ShownMem(pods[..|pods| - 1], metrics) + if p in metrics then ParseMemBytes(metrics[p].memory) else 0
  }

  /** The exact totals, and what the printing may cost. */
  datatype Exact = Exact(cpu: int, mem: int, cpuUnits: int, memUnits: int)

  function ExactFor(pods: seq<string>, items: seq<Pod>): Exact
  {
    if pods == [] then Exact(0, 0, 0, 0)
    else
      var e, p := ExactFor(pods[..|pods| - 1], items), LastNamed(items, pods[|pods| - 1]);
      if p.None? then e
      else
        var cpu, mem := CPUOf(p.value.containers), MemOf(p.value.containers);
        Exact(e.cpu + cpu, e.mem + mem, e.cpuUnits + CPUUnit(cpu), e.memUnits + MemUnit(mem))
  }

  ghost predicate NotNegative(items: seq<Pod>)
  {
    forall p | p in items :: CPUOf(p.containers) >= 0 && MemOf(p.containers) >= 0
  }

  lemma {:induction false} LastNamedIsListed(items: seq<Pod>, name: string)
    ensures LastNamed(items, name).Some? ==> LastNamed(items, name).value in items
  {
    if items != [] { LastNamedIsListed(items[..|items| - 1], name); }
  }

  /** A total summed from printed amounts never exceeds the exact one, and falls short by less
      than the units its pods are printed in. */
  lemma {:induction false} TotalsFallShort(pods: seq<string>, items: seq<Pod>, metrics: map<string, Usage>)
    requires Measures(metrics, items) && NotNegative(items)
    ensures var e := ExactFor(pods, items);
      0 <= e.cpu - ShownCPU(pods, metrics) <= e.cpuUnits && 0 <= e.mem - ShownMem(pods, metrics) <= e.memUnits &&
      (e.cpuUnits > 0 ==> e.cpu - ShownCPU(pods, metrics) < e.cpuUnits) &&
      (e.memUnits > 0 ==> e.mem - ShownMem(pods, metrics) < e.memUnits)
  {
    if pods != [] {
      var n := pods[|pods| - 1];
      TotalsFallShort(pods[..|pods| - 1], items, metrics);
      LastNamedIsListed(items, n);
      if LastNamed(items, n).Some? {
        var p := LastNamed(items, n).value;
        assert n in metrics && metrics[n] == UsageOf(p);
        CPURoundTrip(CPUOf(p.containers));
        MemRoundTrip(MemOf(p.containers));
      } else {
        assert n !in metrics;
      }
      hide ParseCPUNano, ParseMemBytes, FormatCPUNano, FormatMemBytes, Floor;
    }
  }

  // ---------- What is summed ----------

  /** A pod's amounts are those of its containers, all of them and nothing else. */
  lemma {:induction false} PodsAddTheirContainers(a: seq<Container>, b: seq<Container>, c: Container)
    ensures CPUOf(a + b) == CPUOf(a) + CPUOf(b) && MemOf(a + b) == MemOf(a) + MemOf(b)
    ensures CPUOf([]) == 0 && MemOf([]) == 0 && CPUOf([c]) == ParseCPUNano(c.cpu) && MemOf([c]) == ParseMemBytes(c.memory)
  {
    assert CPUOf([c]) == CPUOf([c][..0]) + ParseCPUNano(c.cpu) && MemOf([c]) == MemOf([c][..0]) + ParseMemBytes(c.memory);
    if b == [] {
      assert a + b == a;
    } else {
      PodsAddTheirContainers(a, b[..|b| - 1], c);
      assert (a + b)[..|a + b| - 1] == a + b[..|b| - 1];
    }
    hide ParseCPUNano, ParseMemBytes;
  }

  /** And a total those of its pods that have metrics. */
  lemma {:induction false} TotalsAddTheirPods(a: seq<string>, b: seq<string>, pod: string, metrics: map<string, Usage>)
    ensures ShownCPU(a + b, metrics) == ShownCPU(a, metrics) + ShownCPU(b, metrics)
    ensures ShownMem(a + b, metrics) == ShownMem(a, metrics) + ShownMem(b, metrics)
    ensures ShownCPU([pod], metrics) == if pod in metrics then ParseCPUNano(metrics[pod].cpu) else 0
    ensures ShownMem([pod], metrics) == if pod in metrics then ParseMemBytes(metrics[pod].memory) else 0
  {
    assert [pod][..0] == [];
    if b == [] {
      assert a + b == a;
    } else {
      TotalsAddTheirPods(a, b[..|b| - 1], pod, metrics);
      assert (a + b)[..|a + b| - 1] == a + b[..|b| - 1];
    }
    hide ParseCPUNano, ParseMemBytes;
  }

  /** Of the items of one name the last counts. */
  lemma {:induction false} LastNamedIsLast(items: seq<Pod>, name: string) returns (i: nat)
    ensures LastNamed(items, name).None? <==> forall p | p in items :: p.name != name
    ensures LastNamed(items, name).Some? ==>
      i < |items| && items[i].name == name && LastNamed(items, name).value == items[i] &&
      forall j | i < j < |items| :: items[j].name != name
  {
    i := 0;
    if items != [] {
      var front, p := items[..|items| - 1], items[|items| - 1];
      assert items == front + [p];
      i := LastNamedIsLast(front, name);
      if p.name == name { i := |front|; }
    }
  }
}
