/** The generator of access log batches (test-utils/src/data_gen.rs). Its random choices are
    parameters; columns of random values are left out. */
module AccessLog {
  import opened Text
  import O = StringOrder
  import V = Division

  const STEP: nat := 0x7d8_7f8e_d5c5
  const BASE: nat := 0x1ec3_ca31_5146_8928
  const WORD: nat := 0x1_0000_0000_0000_0000

  datatype Row = Row(service: string, host: string, pod: string, container: nat, time: nat)

  /** A pod, and the number of entries of each of its containers. */
  datatype Pod = Pod(name: string, entries: seq<nat>)

  // All the rows that random choices ask for

  function EntryRows(host: string, service: string, pod: string, container: nat, n: nat): seq<Row> {
    if n == 0 then []
    else EntryRows(host, service, pod, container, n - 1) + [Row(service, host, pod, container, (n - 1) * 1024)]
  }

  /** The rows of the first `k` containers of a pod. */
  function ContainerRows(host: string, service: string, pod: Pod, k: nat): seq<Row>
    requires k <= |pod.entries|
  {
    if k == 0 then []
    else ContainerRows(host, service, pod, k - 1) + EntryRows(host, service, pod.name, k - 1, pod.entries[k - 1])
  }

  function PodRows(host: string, service: string, pods: seq<Pod>): seq<Row> {
    if pods == [] then []
    else PodRows(host, service, pods[..|pods| - 1])
         + ContainerRows(host, service, pods[|pods| - 1], |pods[|pods| - 1].entries|)
  }

  /** The services, each with its pods unless it is passed over. */
  type Choices = seq<(string, Option<seq<Pod>>)>

  function ServiceRows(host: string, choices: Choices): seq<Row> {
    if choices == [] then []
    else
      var last := choices[|choices| - 1];
      ServiceRows(host, choices[..|choices| - 1]) + if last.1.Some? then PodRows(host, last.0, last.1.value) else []
  }

  function First(rows: seq<Row>, n: nat): seq<Row> {
    if |rows| <= n then rows else rows[..n]
  }

  /** Once the limit is reached nothing more is taken. */
  lemma FirstAgain(a: seq<Row>, b: seq<Row>, n: nat)
    ensures First(First(a, n) + b, n) == First(a + b, n)
  {
    if |a| > n {
      assert (a[..n] + b)[..n] == a[..n] == (a + b)[..n];
    }
  }

  class BatchBuilder {
    const limit: nat
    var rows: seq<Row>

    constructor (limit: nat)
      ensures this.limit == limit && rows == []
    {
      this.limit := limit;
      rows := [];
    }

    predicate IsFinished()
      reads this
    {
      limit <= |rows|
    }

    /** Appends a container's rows; stops in the middle of them when the limit is reached. */
    method AppendEntries(host: string, service: string, pod: string, container: nat, n: nat) returns (stopped: bool)
      requires |rows| <= limit
      modifies this`rows
      ensures rows == First(old(rows) + EntryRows(host, service, pod, container, n), limit)
      ensures stopped ==> |rows| == limit
    {
      assert rows + [] == rows;
      for i := 0 to n
        invariant rows == old(rows) + EntryRows(host, service, pod, container, i) && |rows| <= limit
      {
        if IsFinished() {
          EntryRowsGrow(host, service, pod, container, i, n);
          return true;
        }
        rows := rows + [Row(service, host, pod, container, i * 1024)];
      }
      return false;
    }

    method AppendPod(host: string, service: string, pod: Pod) returns (stopped: bool)
      requires |rows| <= limit
      modifies this`rows
      ensures rows == First(old(rows) + ContainerRows(host, service, pod, |pod.entries|), limit)
      ensures stopped ==> |rows| == limit
    {
      hide EntryRows;
      assert rows + [] == rows;
      for c := 0 to |pod.entries|
        invariant rows == First(old(rows) + ContainerRows(host, service, pod, c), limit) && |rows| <= limit
      {
        ghost var done := ContainerRows(host, service, pod, c);
        ghost var here := EntryRows(host, service, pod.name, c, pod.entries[c]);
        stopped := AppendEntries(host, service, pod.name, c, pod.entries[c]);
        FirstAgain(old(rows) + done, here, limit);
        assert old(rows) + done + here == old(rows) + ContainerRows(host, service, pod, c + 1);
        if stopped {
          ContainerRowsGrow(host, service, pod, c + 1, |pod.entries|);
          ghost var next := ContainerRows(host, service, pod, c + 1);
          ghost var all := ContainerRows(host, service, pod, |pod.entries|);
          FirstOfLonger(old(rows), next, all, limit);
          return;
        }
      }
      return false;
    }

    /** Appends a service's rows; stops when the limit is reached. */
    method Append(host: string, service: string, pods: seq<Pod>)
      requires |rows| <= limit
      modifies this`rows
      ensures rows == First(old(rows) + PodRows(host, service, pods), limit)
    {
      hide ContainerRows;
      assert rows + [] == rows && pods[..|pods|] == pods;
      for p := 0 to |pods|
        invariant rows == First(old(rows) + PodRows(host, service, pods[..p]), limit) && |rows| <= limit
      {
        ghost var done := PodRows(host, service, pods[..p]);
        ghost var here := ContainerRows(host, service, pods[p], |pods[p].entries|);
        var stopped := AppendPod(host, service, pods[p]);
        FirstAgain(old(rows) + done, here, limit);
        assert pods[..p + 1][..p] == pods[..p];
        assert old(rows) + done + here == old(rows) + PodRows(host, service, pods[..p + 1]);
        if stopped {
          PodRowsGrow(host, service, pods, p + 1);
          FirstOfLonger(old(rows), PodRows(host, service, pods[..p + 1]), PodRows(host, service, pods), limit);
          return;
        }
      }
    }
  }

  /** A beginning that fills the limit is as good as the whole. */
  lemma FirstOfLonger(start: seq<Row>, a: seq<Row>, b: seq<Row>, n: nat)
    requires a <= b && |First(start + a, n)| == n
    ensures First(start + a, n) == First(start + b, n)
  {
    assert (start + b)[..|start + a|] == start + a;
    assert (start + b)[..n] == (start + a)[..n];
  }

  lemma {:induction false} EntryRowsGrow(host: string, service: string, pod: string, container: nat, i: nat, n: nat)
    requires i <= n
    ensures EntryRows(host, service, pod, container, i) <= EntryRows(host, service, pod, container, n)
  {
    if i >= n {
    } else {
      EntryRowsGrow(host, service, pod, container, i, n - 1);
    }
  }

  lemma {:induction false} ContainerRowsGrow(host: string, service: string, pod: Pod, c: nat, n: nat)
    requires c <= n <= |pod.entries|
    ensures ContainerRows(host, service, pod, c) <= ContainerRows(host, service, pod, n)
  {
    if c >= n {
    } else {
      ContainerRowsGrow(host, service, pod, c, n - 1);
    }
  }

  lemma {:induction false} PodRowsGrow(host: string, service: string, pods: seq<Pod>, p: nat)
    requires p <= |pods|
    ensures PodRows(host, service, pods[..p]) <= PodRows(host, service, pods)
  {
    if p < |pods| {
      PodRowsGrow(host, service, pods[..|pods| - 1], p);
      assert pods[..|pods| - 1][..p] == pods[..p];
    } else {
      assert pods[..p] == pods;
    }
  }

  // Host names

  const HEX: string := "0123456789abcdef"

  function Hex(n: nat, width: nat): (s: string)
    ensures |s| == width
  {
    if width == 0 then "" else Hex(n / 16, width - 1) + [HEX[n % 16]]
  }

  function Pow16(w: nat): nat {
    if w == 0 then 1 else 16 * Pow16(w - 1)
  }

  predicate Before(a: string, b: string) {
    O.Le(a, b) && a != b
  }

  lemma {:induction false} BeforeAppend(a: string, x: string, b: string, y: string)
    requires |a| == |b| && Before(a, b)
    ensures Before(a + x, b + y)
  {
    assert (a + x)[1..] == a[1..] + x && (b + y)[1..] == b[1..] + y;
    assert a == [a[0]] + a[1..] && b == [b[0]] + b[1..];
    if a[0] == b[0] { BeforeAppend(a[1..], x, b[1..], y); }
  }

  lemma {:induction false} BeforeBehind(p: string, a: string, b: string)
    requires Before(a, b)
    ensures Before(p + a, p + b)
  {
    if p == "" {
      assert p + a == a && p + b == b;
    } else {
      BeforeBehind(p[1..], a, b);
      assert (p + a)[1..] == p[1..] + a && (p + b)[1..] == p[1..] + b;
    }
  }

  /** At a fixed width, hexadecimal numbers are in the order of their values. */
  lemma {:induction false} HexOrder(m: nat, n: nat, width: nat)
    requires m < n < Pow16(width)
    ensures Before(Hex(m, width), Hex(n, width))
  {
    if m / 16 < n / 16 {
      HexOrder(m / 16, n / 16, width - 1);
      BeforeAppend(Hex(m / 16, width - 1), [HEX[m % 16]], Hex(n / 16, width - 1), [HEX[n % 16]]);
    } else {
      DigitOrder(m % 16, n % 16);
      BeforeBehind(Hex(m / 16, width - 1), [HEX[m % 16]], [HEX[n % 16]]);
    }
  }

  lemma DigitOrder(m: nat, n: nat)
    requires m < n < 16
    ensures Before([HEX[m]], [HEX[n]])
  {
    assert HEX[m] < HEX[n];
    assert O.Le([HEX[m]], [HEX[n]]);
  }

  lemma WordIsPower()
    ensures Pow16(16) == WORD
  {
    assert Pow16(4) == 0x1_0000;
    assert Pow16(8) == 0x1_0000_0000;
    assert Pow16(12) == 0x1_0000_0000_0000;
  }

  /** The host number of a batch, in 64 bits. */
  function HostNumber(i: nat): nat {
    (i * STEP + BASE) % WORD
  }

  function HostName(i: nat): string {
    "i-" + Hex(HostNumber(i), 16) + ".ec2.internal"
  }

  lemma {:induction false} HostOrder(m: nat, n: nat)
    requires m < WORD && n < WORD
    ensures Before("i-" + Hex(m, 16) + ".ec2.internal", "i-" + Hex(n, 16) + ".ec2.internal") <==> m < n
  {
    hide Hex, Before, O.Le;
    WordIsPower();
    if m < n {
      NamesInOrder(m, n);
    } else if n < m {
      NamesInOrder(n, m);
      NotBoth(m, n);
    } else {
      NotItself("i-" + Hex(m, 16) + ".ec2.internal");
    }
  }

  lemma NotItself(s: string)
    ensures !Before(s, s)
  {
  }

  lemma NotBoth(m: nat, n: nat)
    requires Before("i-" + Hex(n, 16) + ".ec2.internal", "i-" + Hex(m, 16) + ".ec2.internal")
    ensures !Before("i-" + Hex(m, 16) + ".ec2.internal", "i-" + Hex(n, 16) + ".ec2.internal")
  {
    hide Hex;
    var a, b := "i-" + Hex(m, 16) + ".ec2.internal", "i-" + Hex(n, 16) + ".ec2.internal";
    if O.Le(a, b) { O.Antisymmetric(a, b); }
  }

  lemma NamesInOrder(m: nat, n: nat)
    requires m < n < Pow16(16)
    ensures Before("i-" + Hex(m, 16) + ".ec2.internal", "i-" + Hex(n, 16) + ".ec2.internal")
  {
    hide Hex, Before, O.Le, Pow16;
    HexOrder(m, n, 16);
    BeforeBehind("i-", Hex(m, 16), Hex(n, 16));
    BeforeAppend("i-" + Hex(m, 16), ".ec2.internal", "i-" + Hex(n, 16), ".ec2.internal");
  }

  lemma NextHost(i: nat)
    ensures HostNumber(i) < WORD
    ensures HostNumber(i + 1)
         == if HostNumber(i) + STEP < WORD then HostNumber(i) + STEP else HostNumber(i) + STEP - WORD
  {
    V.AddWraps(i * STEP + BASE, STEP, WORD);
    assert (i + 1) * STEP + BASE == i * STEP + BASE + STEP;
  }

  /** Hosts come in order from one batch to the next exactly as long as the number does not leave
      its 64 bits. */
  lemma HostsIncrease(i: nat)
    ensures Before(HostName(i), HostName(i + 1)) <==> HostNumber(i) + STEP < WORD
  {
    hide Before, Hex, HostNumber;
    NextHost(i);
    NextHost(i + 1);
    HostOrder(HostNumber(i), HostNumber(i + 1));
  }

  // Batches

  /** The rows of a batch: those of each service in turn, up to the limit. */
  method FillBatch(host: string, choices: Choices, limit: nat) returns (rows: seq<Row>)
    ensures rows == First(ServiceRows(host, choices), limit)
  {
    hide PodRows;
    var builder := new BatchBuilder(limit);
    assert choices[..|choices|] == choices;
    for k := 0 to |choices|
      invariant builder.rows == First(ServiceRows(host, choices[..k]), limit) && |builder.rows| <= limit
    {
      assert choices[..k + 1][..k] == choices[..k];
      if choices[k].1.None? {
        assert ServiceRows(host, choices[..k]) + [] == ServiceRows(host, choices[..k]);
        continue;
      }
      if builder.IsFinished() {
        ServicesGrow(host, choices, k);
        FirstOfLonger([], ServiceRows(host, choices[..k]), ServiceRows(host, choices), limit);
        break;
      }
      builder.Append(host, choices[k].0, choices[k].1.value);
      FirstAgain(ServiceRows(host, choices[..k]), PodRows(host, choices[k].0, choices[k].1.value), limit);
    }
    return builder.rows;
  }

  function TotalRows(batches: seq<seq<Row>>): nat {
    if batches == [] then 0 else TotalRows(batches[..|batches| - 1]) + |batches[|batches| - 1]|
  }

  class AccessLogGenerator {
    const maxBatchSize: nat
    const rowLimit: nat
    var hostIdx: nat
    var rowCount: nat
    ghost var batches: seq<seq<Row>>

    ghost predicate Valid()
      reads this
    {
      && rowCount == TotalRows(batches) <= rowLimit && hostIdx == |batches|
      && forall batch <- batches :: |batch| <= maxBatchSize
    }

    constructor (maxBatchSize: nat, rowLimit: nat)
      ensures Valid() && batches == [] && this.maxBatchSize == maxBatchSize && this.rowLimit == rowLimit
    {
      this.maxBatchSize, this.rowLimit := maxBatchSize, rowLimit;
      hostIdx, rowCount, batches := 0, 0, [];
    }

    /** The next batch: what the choices ask for on the next host, up to the limits; nothing more
        once the row limit is reached. */
    method Next(choices: Choices) returns (r: Option<seq<Row>>)
      requires Valid()
      modifies this
      ensures Valid()
      ensures r.None? <==> old(rowCount) == rowLimit
      ensures r.None? ==> batches == old(batches)
      ensures r.Some? ==> batches == old(batches) + [r.value]
      ensures r.Some? ==>
                var limit := if maxBatchSize < rowLimit - old(rowCount) then maxBatchSize else rowLimit - old(rowCount);
                r.value == First(ServiceRows(HostName(old(hostIdx)), choices), limit)
    {
      hide HostName, ServiceRows;
      if rowCount == rowLimit { return None; }
      var limit := if maxBatchSize < rowLimit - rowCount then maxBatchSize else rowLimit - rowCount;
      var host := HostName(hostIdx);
      hostIdx := hostIdx + 1;
      var batch := FillBatch(host, choices, limit);
      rowCount := rowCount + |batch|;
      assert (batches + [batch])[..|batches + [batch]| - 1] == batches;
      batches := batches + [batch];
      return Some(batch);
    }
  }

  /** Once a batch is full the services that follow make no difference. */
  lemma {:induction false} ServicesGrow(host: string, choices: Choices, k: nat)
    requires k <= |choices|
    ensures ServiceRows(host, choices[..k]) <= ServiceRows(host, choices)
  {
    hide PodRows;
    if k < |choices| {
      ServicesGrow(host, choices[..|choices| - 1], k);
      assert choices[..|choices| - 1][..k] == choices[..k];
    } else {
      assert choices[..k] == choices;
    }
  }
}
