/** The two stores hosted-app reconciliation reads, and its reads of them
    (scripts/reconcile-hosted-app-snapshots.ts).

    The stores change while they are read. `history` lists their committed states in order; the n-th
    read sees the state that was current then. Quantifying over `when` covers every interleaving of
    the reader with the writers. */
module SnapshotStore {
  import opened Wrappers

  const REGISTRY_PAGE_SIZE: nat := 100
  const MAX_REGISTRIES: nat := 10_000

  /** The folder of an archive's snapshot path, where in it the archive lives, and what it must contain. */
  datatype Descriptor = Descriptor(folder: string, key: string, content: string)

  /** `descriptor` is the recovery descriptor the registry yields for a detached installation. */
  datatype Installation = Installation(detached: bool, descriptor: Option<Descriptor>)

  datatype Registry = Registry(workspaceId: string, installations: seq<Installation>)

  /** `workspaceId` is absent when malformed, `registry` when its payload does not parse. */
  datatype Row = Row(workspaceId: Option<string>, registry: Option<Registry>)

  /** A committed state: registry rows ordered by workspace, archives by object key in name order, the
      folders that hold something, and the objects whose path is malformed. */
  datatype World = World(
    generation: nat, rows: seq<Row>, keys: seq<string>, contents: map<string, string>,
    folders: set<string>, malformed: nat)

  datatype Reader = Reader(history: nat -> World, when: nat -> nat, fault: nat -> bool)

  datatype ReadError =
    | GenerationUnavailable | RegistriesUnavailable | InvalidWorkspace | InvalidRegistry
    | CrossedWorkspace | TooManyRegistries | DuplicateWorkspace | InventoryUnavailable | NeverStable

  /** What a series of reads came to, and the number of the read after them. */
  datatype Read<+T> = Read(result: Result<T, ReadError>, next: nat)

  function Seen(r: Reader, n: nat): World { r.history(r.when(n)) }

  /** Time does not run backwards, and every committed mutation increases the generation. */
  ghost predicate Fenced(r: Reader) {
    && (forall n: nat :: r.when(n) <= r.when(n + 1))
    && (forall c: nat :: r.history(c).generation < r.history(c + 1).generation)
  }

  /** The reads from `a` up to `b` all saw one committed state. */
  ghost predicate Still(r: Reader, a: nat, b: nat) {
    forall n :: a <= n < b ==> r.when(n) == r.when(a)
  }

  /** Every read from `a` up to `b` saw the state `w`. */
  ghost predicate Sees(r: Reader, a: nat, b: nat, w: World) {
    forall n :: a <= n < b ==> Seen(r, n) == w
  }

  /** How many of the reads from `a` up to `b` fail. */
  ghost function Faults(r: Reader, a: nat, b: nat): nat
    decreases b - a
  {
    if a >= b then 0 else (if r.fault(a) then 1 else 0) + Faults(r, a + 1, b)
  }

  ghost predicate FaultFree(r: Reader, a: nat, b: nat) {
    Faults(r, a, b) == 0
  }

  lemma {:induction false} FaultsJoin(r: Reader, a: nat, b: nat, c: nat)
    requires a <= b <= c
    ensures Faults(r, a, c) == Faults(r, a, b) + Faults(r, b, c)
    decreases b - a
  {
    if a >= b {
    } else {
      FaultsJoin(r, a + 1, b, c);
    }
  }

  lemma {:induction false} TimeAdvances(r: Reader, m: nat, n: nat)
    requires Fenced(r) && m <= n
    ensures r.when(m) <= r.when(n)
    decreases n - m
  {
    if m >= n {
    } else {
      TimeAdvances(r, m + 1, n);
    }
  }

  lemma {:induction false} GenerationAdvances(r: Reader, c: nat, d: nat)
    requires Fenced(r) && c < d
    ensures r.history(c).generation < r.history(d).generation
    decreases d - c
  {
    if c + 1 < d {
      GenerationAdvances(r, c + 1, d);
    }
  }

  /** The fence: when two reads see the same generation, nothing was committed between them. */
  lemma SameGenerationIsStill(r: Reader, a: nat, b: nat)
    requires Fenced(r) && a < b
    ensures Seen(r, a).generation == Seen(r, b - 1).generation <==> Still(r, a, b)
  {
    TimeAdvances(r, a, b - 1);
    if r.when(a) < r.when(b - 1) {
      GenerationAdvances(r, r.when(a), r.when(b - 1));
    }
    forall n | a <= n < b ensures r.when(a) <= r.when(n) <= r.when(b - 1) {
      TimeAdvances(r, a, n);
      TimeAdvances(r, n, b - 1);
    }
  }

  // ----- paging through a table

  function Page<T>(table: seq<T>, from: nat, size: nat): seq<T> {
    if |table| <= from then []
    else if |table| <= from + size then table[from..]
    else table[from..from + size]
  }

  /** Each row must carry a well-formed workspace and the registry of that workspace. */
  function RowRegistry(row: Row): Result<Registry, ReadError> {
    if row.workspaceId.None? then Err(InvalidWorkspace)
    else if row.registry.None? then Err(InvalidRegistry)
    else if row.registry.value.workspaceId != row.workspaceId.value then Err(CrossedWorkspace)
    else Ok(row.registry.value)
  }

  function RowRegistries(rows: seq<Row>): Result<seq<Registry>, ReadError> {
    if rows == [] then Ok([])
    else match RowRegistry(rows[0])
      case Err(e) => Err(e)
      case Ok(first) =>
        match RowRegistries(rows[1..])
        case Err(e) => Err(e)
        case Ok(rest) => Ok([first] + rest)
  }

  lemma {:induction false} RowRegistriesConcat(a: seq<Row>, b: seq<Row>)
    ensures RowRegistries(a + b) ==
      match RowRegistries(a)
      case Err(e) => Err(e)
      case Ok(first) =>
        match RowRegistries(b)
        case Err(e) => Err(e)
        case Ok(rest) => Ok(first + rest)
  {
    if a == [] {
      assert a + b == b;
      match RowRegistries(b)
      case Err(_) =>
      case Ok(rest) => assert [] + rest == rest;
    } else {
      assert (a + b)[1..] == a[1..] + b;
      RowRegistriesConcat(a[1..], b);
      match RowRegistries(a)
      case Err(_) =>
      case Ok(first) =>
        match RowRegistries(b)
        case Err(_) =>
        case Ok(rest) => assert [first[0]] + (first[1..] + rest) == first + rest;
    }
  }

  /** What a table holds, in order: all of its rows when they are valid and fewer than the bound. */
  function TableRegistries(rows: seq<Row>): Result<seq<Registry>, ReadError> {
    var read := if |rows| <= MAX_REGISTRIES then rows else rows[..MAX_REGISTRIES];
    match RowRegistries(read)
    case Err(e) => Err(e)
    case Ok(registries) => if |rows| >= MAX_REGISTRIES then Err(TooManyRegistries) else Ok(registries)
  }

  /** The pages still to read, as a function. */
  function RegistriesFrom(r: Reader, n: nat, from: nat, acc: seq<Registry>): Read<seq<Registry>>
    decreases MAX_REGISTRIES - from, n
  {
    if from >= MAX_REGISTRIES then Read(Err(TooManyRegistries), n)
    else if r.fault(n) then Read(Err(RegistriesUnavailable), n + 1)
    else
      var rows := Page(Seen(r, n).rows, from, REGISTRY_PAGE_SIZE);
      var registries := RowRegistries(rows);
      if registries.Err? then Read(Err(registries.error), n + 1)
      else if |rows| < REGISTRY_PAGE_SIZE then Read(Ok(acc + registries.value), n + 1)
      else RegistriesFrom(r, n + 1, from + REGISTRY_PAGE_SIZE, acc + registries.value)
  }

  /** `readTenantRegistries`: one read a page, pushing each row's registry. */
  method ReadTenantRegistries(r: Reader, n: nat) returns (read: Read<seq<Registry>>)
    ensures read == RegistriesFrom(r, n, 0, [])
  {
    var registries: seq<Registry> := [];
    var from, next := 0, n;
    while from < MAX_REGISTRIES
      invariant RegistriesFrom(r, n, 0, []) == RegistriesFrom(r, next, from, registries)
    {
      if r.fault(next) {
        return Read(Err(RegistriesUnavailable), next + 1);
      }
      var rows := Page(Seen(r, next).rows, from, REGISTRY_PAGE_SIZE);
      ghost var before := registries;
      for i := 0 to |rows|
        invariant match RowRegistries(rows[i..])
          case Err(e) => RowRegistries(rows) == Err(e)
          case Ok(rest) => RowRegistries(rows).Ok? && before + RowRegistries(rows).value == registries + rest
      {
        assert rows[i..][1..] == rows[i + 1..];
        var parsed := RowRegistry(rows[i]);
        if parsed.Err? {
          return Read(Err(parsed.error), next + 1);
        }
        registries := registries + [parsed.value];
      }
      assert rows[|rows|..] == [] && registries + [] == registries;
      if |rows| < REGISTRY_PAGE_SIZE {
        return Read(Ok(registries), next + 1);
      }
      from := from + REGISTRY_PAGE_SIZE;
      next := next + 1;
    }
    return Read(Err(TooManyRegistries), next);
  }

  /** On one table without faults, paging reads what the table holds: every row once and in
      order, none lost or repeated at a page boundary, and an oversized table is refused. */
  lemma {:induction false} PagingReadsTable(r: Reader, n: nat, from: nat, acc: seq<Registry>, w: World)
    requires var next := RegistriesFrom(r, n, from, acc).next; Sees(r, n, next, w) && FaultFree(r, n, next)
    requires from % REGISTRY_PAGE_SIZE == 0 && from <= |w.rows| && from <= MAX_REGISTRIES
    requires RowRegistries(w.rows[..from]) == Ok(acc)
    ensures n < RegistriesFrom(r, n, from, acc).next || from == MAX_REGISTRIES
    ensures RegistriesFrom(r, n, from, acc).result == TableRegistries(w.rows)
    decreases MAX_REGISTRIES - from, n
  {
    hide RowRegistries;
    var table := w.rows;
    if from == MAX_REGISTRIES {
      assert table[..MAX_REGISTRIES] == table[..from];
      if |table| == MAX_REGISTRIES { assert table[..MAX_REGISTRIES] == table; }
    } else {
      assert n < RegistriesFrom(r, n, from, acc).next by { RegistriesAdvance(r, n, from, acc); }
      var rows := Page(table, from, REGISTRY_PAGE_SIZE);
      var end := from + |rows|;
      assert table[..from] + rows == table[..end];
      RowRegistriesConcat(table[..from], rows);
      if |rows| == REGISTRY_PAGE_SIZE && RowRegistries(rows).Ok? {
        var acc' := acc + RowRegistries(rows).value;
        RegistriesAdvance(r, n + 1, end, acc');
        if end < MAX_REGISTRIES {
          PagingReadsTable(r, n + 1, end, acc', w);
        } else {
          assert RegistriesFrom(r, n + 1, end, acc') == Read(Err(TooManyRegistries), n + 1);
          TableFromPrefix(table, end);
        }
      } else {
        TableFromPrefix(table, end);
      }
    }
  }

  /** Paging that succeeds met no fault. */
  lemma {:induction false} PagingMetNoFault(r: Reader, n: nat, from: nat, acc: seq<Registry>)
    requires RegistriesFrom(r, n, from, acc).result.Ok?
    ensures FaultFree(r, n, RegistriesFrom(r, n, from, acc).next)
    decreases MAX_REGISTRIES - from, n
  {
    hide RowRegistries;
    var rows := Page(Seen(r, n).rows, from, REGISTRY_PAGE_SIZE);
    assert Faults(r, n + 1, n + 1) == 0;
    if |rows| >= REGISTRY_PAGE_SIZE {
      PagingMetNoFault(r, n + 1, from + REGISTRY_PAGE_SIZE, acc + RowRegistries(rows).value);
      RegistriesAdvance(r, n + 1, from + REGISTRY_PAGE_SIZE, acc + RowRegistries(rows).value);
    }
  }

  /** The prefix read so far decides the table when it is all of it, reaches the bound or is invalid. */
  lemma TableFromPrefix(table: seq<Row>, end: nat)
    requires end <= |table| && end <= MAX_REGISTRIES
    ensures RowRegistries(table[..end]).Err? ==> TableRegistries(table) == RowRegistries(table[..end])
    ensures end == |table| < MAX_REGISTRIES ==> TableRegistries(table) == RowRegistries(table[..end])
    ensures end == MAX_REGISTRIES && RowRegistries(table[..end]).Ok? ==>
      TableRegistries(table) == Err(TooManyRegistries)
  {
    var read := if |table| <= MAX_REGISTRIES then table else table[..MAX_REGISTRIES];
    assert read == table[..end] + read[end..];
    RowRegistriesConcat(table[..end], read[end..]);
    if end == |read| {
      assert read[end..] == [];
      assert table[..end] == read;
    }
  }

  lemma {:induction false} RegistriesAdvance(r: Reader, n: nat, from: nat, acc: seq<Registry>)
    ensures n <= RegistriesFrom(r, n, from, acc).next
    ensures from < MAX_REGISTRIES ==> n < RegistriesFrom(r, n, from, acc).next
    decreases MAX_REGISTRIES - from, n
  {
    if from < MAX_REGISTRIES && !r.fault(n) {
      var rows := Page(Seen(r, n).rows, from, REGISTRY_PAGE_SIZE);
      match RowRegistries(rows)
      case Err(_) =>
      case Ok(registries) =>
        if |rows| >= REGISTRY_PAGE_SIZE {
          RegistriesAdvance(r, n + 1, from + REGISTRY_PAGE_SIZE, acc + registries);
        }
    }
  }

  /** Paging accepts exactly the tables of at most 9999 valid rows. */
  lemma TableAcceptedIff(rows: seq<Row>)
    ensures TableRegistries(rows).Ok? <==>
      |rows| <= 9999 && forall i :: 0 <= i < |rows| ==> RowRegistry(rows[i]).Ok?
    ensures TableRegistries(rows).Ok? ==>
      var registries := TableRegistries(rows).value;
      |registries| == |rows| && forall i :: 0 <= i < |rows| ==> RowRegistry(rows[i]) == Ok(registries[i])
  {
    ValidRows(if |rows| <= MAX_REGISTRIES then rows else rows[..MAX_REGISTRIES]);
  }

  lemma {:induction false} ValidRows(rows: seq<Row>)
    ensures RowRegistries(rows).Ok? <==> forall i :: 0 <= i < |rows| ==> RowRegistry(rows[i]).Ok?
    ensures RowRegistries(rows).Ok? ==>
      var registries := RowRegistries(rows).value;
      |registries| == |rows| && forall i :: 0 <= i < |rows| ==> RowRegistry(rows[i]) == Ok(registries[i])
  {
    if rows == [] {
    } else {
      ValidRows(rows[1..]);
      assert forall i :: 1 <= i < |rows| ==> rows[i] == rows[1..][i - 1];
      assert (forall i :: 0 <= i < |rows[1..]| ==> RowRegistry(rows[1..][i]).Ok?)
        <==> (forall i :: 1 <= i < |rows| ==> RowRegistry(rows[i]).Ok?);
    }
  }
}
