/** `compute_auto`: the connection limit derived from processors, memory and file descriptors, in 64-bit arithmetic. */
module AutoLimit {

  const U64_MAX: nat := 0xffff_ffff_ffff_ffff

  type U64 = n: nat | n <= U64_MAX

  const PER_CORE_MBPS: nat := 1500
  const PER_USER_KBPS: nat := 200
  const PER_SESSION_KB: nat := 200
  const MEM_BUDGET_PCT: nat := 50
  const FD_RESERVE_DEFAULT: nat := 1024
  const FD_PER_SESSION: nat := 2

  datatype Limit = Cpu | Memory | FileDescriptors

  datatype Breakdown = Breakdown(value: U64, cpuCap: U64, memCap: U64, fdCap: U64, limiting: Limit)

  function SaturatingMul(a: U64, b: U64): U64 {
    if a * b <= U64_MAX then a * b else U64_MAX
  }

  function Least(a: U64, b: U64): U64 {
    if a <= b then a else b
  }

  function CpuCap(cpus: U64): U64 {
    var n: U64 := if cpus == 0 then 1 else cpus;
    SaturatingMul(SaturatingMul(n, PER_CORE_MBPS), 1000) / PER_USER_KBPS
  }

  function MemCap(memKb: U64): U64 {
    SaturatingMul(memKb, MEM_BUDGET_PCT) / 100 / PER_SESSION_KB
  }

  function FdReserve(nofile: U64): U64 {
    Least(FD_RESERVE_DEFAULT, nofile / 4)
  }

  function FdCap(nofile: U64): U64 {
    (nofile - FdReserve(nofile)) / FD_PER_SESSION
  }

  function ComputeAuto(cpus: U64, memKb: U64, nofile: U64): Breakdown {
    var cpuCap, memCap, fdCap := CpuCap(cpus), MemCap(memKb), FdCap(nofile);
    var raw := Least(Least(cpuCap, memCap), fdCap);
    Breakdown(if raw == 0 then 1 else raw, cpuCap, memCap, fdCap,
              if cpuCap <= memCap && cpuCap <= fdCap then Cpu
              else if memCap <= fdCap then Memory
              else FileDescriptors)
  }

  function FixedExceedsAutoCap(value: U64, bd: Breakdown): bool {
    value > bd.cpuCap || value > bd.memCap || value > bd.fdCap
  }

  lemma SaturatingMulMonotone(a: U64, a': U64, b: U64)
    requires a <= a'
    ensures SaturatingMul(a, b) <= SaturatingMul(a', b)
  {
    MulMonotone(a, a', b);
  }

  lemma MulMonotone(a: nat, a': nat, b: nat)
    requires a <= a'
    ensures a * b <= a' * b
  {
    assert a' * b == a * b + (a' - a) * b;
  }

  /** More of any resource never lowers the limit, saturation included. */
  lemma MoreNeverLowers(cpus: U64, memKb: U64, nofile: U64, cpus': U64, memKb': U64, nofile': U64)
    requires cpus <= cpus' && memKb <= memKb' && nofile <= nofile'
    ensures ComputeAuto(cpus, memKb, nofile).value <= ComputeAuto(cpus', memKb', nofile').value
  {
    CpuCapMonotone(cpus, cpus');
    SaturatingMulMonotone(memKb, memKb', MEM_BUDGET_PCT);
    FdCapMonotone(nofile, nofile');
  }

  lemma CpuCapMonotone(a: U64, b: U64)
    requires a <= b
    ensures CpuCap(a) <= CpuCap(b)
  {
    var a': U64, b': U64 := if a == 0 then 1 else a, if b == 0 then 1 else b;
    SaturatingMulMonotone(a', b', PER_CORE_MBPS);
    SaturatingMulMonotone(SaturatingMul(a', PER_CORE_MBPS), SaturatingMul(b', PER_CORE_MBPS), 1000);
  }

  /** What is left after the reserve grows with the limit, although the reserve does too. */
  lemma FdCapMonotone(a: U64, b: U64)
    requires a <= b
    ensures FdCap(a) <= FdCap(b)
  {
    assert a / 4 <= b / 4 <= a / 4 + (b - a);
    assert a - FdReserve(a) <= b - FdReserve(b);
  }

  /** Unless some resource has no room at all and the limit is the floor of one connection, that many connections fit into every resource. */
  lemma LimitFits(cpus: U64, memKb: U64, nofile: U64)
    ensures var v := ComputeAuto(cpus, memKb, nofile).value;
            && v >= 1
            && (CpuCap(cpus) > 0 && MemCap(memKb) > 0 && FdCap(nofile) > 0 ==>
                  && v * FD_PER_SESSION + FdReserve(nofile) <= nofile
                  && v * PER_SESSION_KB * 2 <= memKb
                  && v * PER_USER_KBPS <= (if cpus == 0 then 1 else cpus) * PER_CORE_MBPS * 1000)
  {
  }

  /** The caps say what fits, up to the largest number a product can hold: no more and no less. */
  lemma CapsAreExact(cpus: U64, memKb: U64, nofile: U64, n: nat)
    ensures n <= CpuCap(cpus) <==> n * 200 <= AtMost(AtMost((if cpus == 0 then 1 else cpus) * 1500) * 1000)
    ensures n <= MemCap(memKb) <==> n * 20000 <= AtMost(memKb * 50)
    ensures n <= FdCap(nofile) <==> n * 2 + (if nofile < 4096 then nofile / 4 else 1024) <= nofile
  {
    MemCapIs(memKb);
  }

  lemma MemCapIs(memKb: U64)
    ensures MemCap(memKb) == AtMost(memKb * 50) / 20000
  {
    var budget: nat := AtMost(memKb * 50);
    assert budget / 100 / 200 == budget / 20000;
  }

  function AtMost(n: nat): nat {
    if n > 0xFFFF_FFFF_FFFF_FFFF then 0xFFFF_FFFF_FFFF_FFFF else n
  }

  /** The limit is the largest number of sessions that fits into every resource, and at least one. */
  lemma LimitIsLargest(cpus: U64, memKb: U64, nofile: U64, n: nat)
    ensures n <= ComputeAuto(cpus, memKb, nofile).value <==>
              || n <= 1
              || (&& n * 200 <= AtMost(AtMost((if cpus == 0 then 1 else cpus) * 1500) * 1000)
                  && n * 20000 <= AtMost(memKb * 50)
                  && n * 2 + (if nofile < 4096 then nofile / 4 else 1024) <= nofile)
  {
    CapsAreExact(cpus, memKb, nofile, n);
  }

  /** The named resource has the smallest cap, the first of equals, and a fixed value is too large exactly if it exceeds that cap. */
  lemma LimitingIsSmallest(cpus: U64, memKb: U64, nofile: U64, fixed: U64)
    ensures var bd := ComputeAuto(cpus, memKb, nofile);
            var least := match bd.limiting case Cpu => bd.cpuCap case Memory => bd.memCap case FileDescriptors => bd.fdCap;
            && least <= bd.cpuCap && least <= bd.memCap && least <= bd.fdCap
            && (FixedExceedsAutoCap(fixed, bd) <==> fixed > least)
            && (bd.value == least || (least == 0 && bd.value == 1))
            && (bd.limiting == Memory ==> bd.memCap < bd.cpuCap)
            && (bd.limiting == FileDescriptors ==> bd.fdCap < bd.cpuCap && bd.fdCap < bd.memCap)
  {
  }
}
