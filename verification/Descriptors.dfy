/** Open files: the global list with its reference counts, and each process's descriptors
    (Kernel/src/threads/cpu/handler.c, Kernel/src/functions/file_descriptor.c, and
    `close_opened_files` in Kernel/src/functions/program.c). */
module Descriptors {
  import opened Wrappers
  import opened Lists

  class GlobalFd {
    const path: string
    var open: int

    constructor (path: string)
      ensures this.path == path && open == 0
    {
      this.path, open := path, 0;
    }
  }

  datatype Fd = Fd(value: int, permissions: string, cursor: int, global: GlobalFd)

  datatype Process = Process(fds: seq<Fd>, incrementalFD: int, interruptionCode: int)

  /** A process and a descriptor number of it. */
  type Descriptor = (nat, int)
  type Table = map<Descriptor, GlobalFd>

  const ERROR_FILE_NO_READ_PERMISION := -3
  const ERROR_FILE_NO_WRITE_PERMISION := -4
  const ERROR_FILE_BAD_DELETE := -10
  const ERROR_FD_DOES_NOT_EXIST := -11
  const ERROR_FILE_CREATE_PERMISION := -12
  const ERROR_FS_OPERATION := -13
  const ENOSPC := 28

  /** Where the descriptor with that number stands in the list, or the length. */
  function NumberAt(fds: seq<Fd>, n: int): (r: nat)
    ensures r <= |fds| && (r < |fds| ==> fds[r].value == n)
    ensures r == |fds| ==> forall k :: 0 <= k < |fds| ==> fds[k].value != n
  {
    var test := (fd: Fd) => fd.value == n;
    var r := FirstWhere(fds, test);
    assert forall k :: 0 <= k < r ==> !test(fds[k]);
    r
  }

  // ----- reference counts

  ghost function Holders(table: Table, g: GlobalFd): set<Descriptor> {
    set d | d in table && table[d] == g
  }

  lemma HoldersAdd(table: Table, d: Descriptor, g: GlobalFd, g': GlobalFd)
    requires d !in table
    ensures |Holders(table[d := g], g')| == |Holders(table, g')| + (if g' == g then 1 else 0)
  {
    if g' == g {
      assert Holders(table[d := g], g') == Holders(table, g') + {d};
    } else {
      assert Holders(table[d := g], g') == Holders(table, g');
    }
  }

  lemma HoldersRemove(table: Table, d: Descriptor, g: GlobalFd)
    requires d in table
    ensures |Holders(table - {d}, g)| == |Holders(table, g)| - (if g == table[d] then 1 else 0)
  {
    if g == table[d] {
      assert Holders(table - {d}, g) == Holders(table, g) - {d};
    } else {
      assert Holders(table - {d}, g) == Holders(table, g);
    }
  }

  lemma HeldOnce(table: Table, d: Descriptor)
    requires d in table
    ensures |Holders(table, table[d])| >= 1
    ensures |Holders(table, table[d])| == 1 ==> Holders(table, table[d]) == {d}
  {
    assert d in Holders(table, table[d]);
    if |Holders(table, table[d])| == 1 {
      assert |Holders(table, table[d]) - {d}| == 0;
    }
  }

  /** The global list: no path twice, each entry counted, each used entry listed. */
  ghost predicate GlobalsOk(globals: seq<GlobalFd>, table: Table)
    reads globals
  {
    && (forall i, j :: 0 <= i < j < |globals| ==> globals[i].path != globals[j].path)
    && (forall g :: g in globals ==> g.open == |Holders(table, g)|)
    && (forall d :: d in table ==> table[d] in globals)
  }

  ghost predicate AllOpen(globals: seq<GlobalFd>)
    reads globals
  {
    forall g :: g in globals ==> g.open > 0
  }

  /** A process's list holds its part of the table; numbers are used once and counted up. */
  ghost predicate ListOk(p: nat, process: Process, table: Table) {
    && process.incrementalFD >= 3
    && (forall k :: 0 <= k < |process.fds| ==>
          var fd := process.fds[k];
          3 <= fd.value < process.incrementalFD && (p, fd.value) in table && table[(p, fd.value)] == fd.global)
    && (forall i, j :: 0 <= i < j < |process.fds| ==> process.fds[i].value != process.fds[j].value)
    && (forall n :: (p, n) in table ==> Has(process.fds, n))
  }

  ghost predicate ListsOk(processes: map<nat, Process>, table: Table) {
    && (forall p: nat :: p in processes ==> ListOk(p, processes[p], table))
    && (forall d: Descriptor :: d in table ==> d.0 in processes)
  }

  ghost predicate Has(fds: seq<Fd>, n: int) {
    exists k :: 0 <= k < |fds| && fds[k].value == n
  }

  /** The descriptors open on a path. */
  ghost function OpenOn(paths: map<Descriptor, string>, path: string): set<Descriptor> {
    set d | d in paths && paths[d] == path
  }

  ghost function PathsOf(table: Table): map<Descriptor, string> {
    map d | d in table :: table[d].path
  }

  lemma PathsWith(table: Table, d: Descriptor, g: GlobalFd)
    ensures PathsOf(table[d := g]) == PathsOf(table)[d := g.path]
    ensures d in PathsOf(table) <==> d in table
  {
  }

  lemma PathsWithout(table: Table, d: Descriptor)
    ensures PathsOf(table - {d}) == PathsOf(table) - {d}
  {
  }

  /** Paths being unique, an entry's descriptors are those open on its path. */
  lemma HoldersOfPath(globals: seq<GlobalFd>, table: Table, g: GlobalFd)
    requires GlobalsOk(globals, table) && g in globals
    ensures Holders(table, g) == OpenOn(PathsOf(table), g.path)
  {
    forall d | d in table && table[d].path == g.path ensures table[d] == g {
      var i :| 0 <= i < |globals| && globals[i] == table[d];
      var j :| 0 <= j < |globals| && globals[j] == g;
      assert !(i < j) && !(j < i);
    }
  }

  /** Another process's list does not see the change. */
  lemma OtherList(p: nat, process: Process, table: Table, table': Table)
    requires ListOk(p, process, table)
    requires forall n :: (p, n) in table <==> (p, n) in table'
    requires forall n :: (p, n) in table ==> table'[(p, n)] == table[(p, n)]
    ensures ListOk(p, process, table')
  {
  }

  lemma ListReplaced(processes: map<nat, Process>, table: Table, p: nat, process: Process, table': Table)
    requires ListsOk(processes, table) && p in processes && ListOk(p, process, table')
    requires forall d: Descriptor :: d.0 != p ==> (d in table <==> d in table')
    requires forall d: Descriptor :: d.0 != p && d in table ==> table'[d] == table[d]
    ensures ListsOk(processes[p := process], table')
  {
    hide ListOk;
    forall q: nat | q in processes && q != p ensures ListOk(q, processes[q], table') {
      OtherList(q, processes[q], table, table');
    }
  }

  lemma HasRest(fds: seq<Fd>, k: nat)
    requires k < |fds|
    ensures forall n :: Has(fds, n) && n != fds[k].value ==> Has(RemoveAt(fds, k), n)
    ensures forall j :: 0 <= j < |fds| - 1 ==> RemoveAt(fds, k)[j] == fds[if j < k then j else j + 1]
  {
    var rest := RemoveAt(fds, k);
    forall n | Has(fds, n) && n != fds[k].value ensures Has(rest, n) {
      var j :| 0 <= j < |fds| && fds[j].value == n;
      assert rest[if j < k then j else j - 1].value == n;
    }
  }

  lemma HasMore(fds: seq<Fd>, fd: Fd)
    ensures forall n :: Has(fds, n) || n == fd.value ==> Has(fds + [fd], n)
  {
    forall n | Has(fds, n) ensures Has(fds + [fd], n) {
      var j :| 0 <= j < |fds| && fds[j].value == n;
      assert (fds + [fd])[j].value == n;
    }
    assert (fds + [fd])[|fds|].value == fd.value;
  }

  /** A descriptor list without one of its descriptors. */
  lemma ListWithout(p: nat, process: Process, table: Table, k: nat)
    requires ListOk(p, process, table) && k < |process.fds|
    ensures ListOk(p, process.(fds := RemoveAt(process.fds, k)), table - {(p, process.fds[k].value)})
  {
    HasRest(process.fds, k);
    assert |RemoveAt(process.fds, k)| == |process.fds| - 1;
    hide RemoveAt, Has;
  }

  /** A descriptor list with one descriptor more. */
  lemma ListWith(p: nat, process: Process, table: Table, fd: Fd)
    requires ListOk(p, process, table) && fd.value == process.incrementalFD
    ensures (p, fd.value) !in table
    ensures ListOk(p, process.(fds := process.fds + [fd], incrementalFD := fd.value + 1), table[(p, fd.value) := fd.global])
  {
    assert (p, fd.value) in table ==> Has(process.fds, fd.value);
    HasMore(process.fds, fd);
    hide Has;
  }

  lemma ListsWith(processes: map<nat, Process>, table: Table, p: nat, fd: Fd)
    requires ListsOk(processes, table) && p in processes && fd.value == processes[p].incrementalFD
    ensures (p, fd.value) !in table
    ensures ListsOk(processes[p := processes[p].(fds := processes[p].fds + [fd], incrementalFD := fd.value + 1)],
                    table[(p, fd.value) := fd.global])
  {
    hide ListOk;
    ListWith(p, processes[p], table, fd);
    ListReplaced(processes, table, p, processes[p].(fds := processes[p].fds + [fd], incrementalFD := fd.value + 1),
                 table[(p, fd.value) := fd.global]);
  }

  lemma ListsWithout(processes: map<nat, Process>, table: Table, p: nat, k: nat)
    requires ListsOk(processes, table) && p in processes && k < |processes[p].fds|
    ensures ListsOk(processes[p := processes[p].(fds := RemoveAt(processes[p].fds, k))], table - {(p, processes[p].fds[k].value)})
  {
    hide ListOk, RemoveAt;
    ListWithout(p, processes[p], table, k);
    ListReplaced(processes, table, p, processes[p].(fds := RemoveAt(processes[p].fds, k)),
                 table - {(p, processes[p].fds[k].value)});
  }

  lemma ListsCoded(processes: map<nat, Process>, table: Table, p: nat, code: int)
    requires ListsOk(processes, table) && p in processes
    ensures ListsOk(processes[p := processes[p].(interruptionCode := code)], table)
  {
  }

  lemma PathsKeys(table: Table, d: Descriptor)
    ensures d in PathsOf(table) <==> d in table
    ensures d in table ==> PathsOf(table)[d] == table[d].path
  {
  }

  lemma InGlobals(globals: seq<GlobalFd>, table: Table, d: Descriptor)
    requires GlobalsOk(globals, table) && d in table
    ensures table[d] in globals
  {
  }

  /** A count of one is a single holder of the path. */
  lemma SoleHolder(globals: seq<GlobalFd>, table: Table, d: Descriptor)
    requires GlobalsOk(globals, table) && AllOpen(globals) && d in table
    ensures OpenOn(PathsOf(table), table[d].path) == {d} <==> table[d].open <= 1
    ensures table[d].open >= 1
  {
    HoldersOfPath(globals, table, table[d]);
    HeldOnce(table, d);
  }

  /** The list and the table without an entry's only descriptor. */
  lemma EntryWithout(globals: seq<GlobalFd>, table: Table, i: nat, d: Descriptor)
    requires GlobalsOk(globals, table) && AllOpen(globals) && i < |globals|
    requires d in table && table[d] == globals[i] && globals[i].open == 1
    ensures GlobalsOk(RemoveAt(globals, i), table - {d}) && AllOpen(RemoveAt(globals, i))
  {
    var rest := RemoveAt(globals, i);
    HeldOnce(table, d);
    assert forall j :: 0 <= j < |rest| ==> rest[j] == globals[if j < i then j else j + 1];
    forall g | g in globals && g != globals[i] ensures g in rest {
      var j :| 0 <= j < |globals| && globals[j] == g;
      assert rest[if j < i then j else j - 1] == g;
    }
    forall g | g in rest ensures g.open == |Holders(table - {d}, g)| && g.open > 0 {
      HoldersRemove(table, d, g);
    }
    forall e | e in table - {d} ensures table[e] in rest {
      assert e !in Holders(table, globals[i]);
    }
  }

  /** The `k`-th descriptor is still in the table after the ones before it. */
  lemma OwnDescriptors(p: nat, process: Process, table: Table, k: nat)
    requires ListOk(p, process, table) && k < |process.fds|
    ensures (p, process.fds[k].value) in table && table[(p, process.fds[k].value)] == process.fds[k].global
    ensures forall j :: 0 <= j < k ==> process.fds[j].value != process.fds[k].value
  {
  }

  lemma OwnGone(p: nat, process: Process, table: Table, table': Table)
    requires ListOk(p, process, table)
    requires forall d :: d in table' <==> d in table && forall j :: 0 <= j < |process.fds| ==> d != (p, process.fds[j].value)
    ensures forall d :: d in table' <==> d in table && d.0 != p
  {
    forall d: Descriptor | d in table && d.0 == p ensures d !in table' {
      assert Has(process.fds, d.1);
    }
  }

  lemma ListsEmptied(processes: map<nat, Process>, table: Table, p: nat, table': Table)
    requires ListsOk(processes, table) && p in processes
    requires forall d :: d in table' <==> d in table && d.0 != p
    requires forall d :: d in table' ==> table'[d] == table[d]
    ensures ListsOk(processes[p := processes[p].(fds := [])], table')
  {
    hide Has;
    ListReplaced(processes, table, p, processes[p].(fds := []), table');
  }

  /** The list without an entry nobody holds. */
  lemma GlobalsWithout(globals: seq<GlobalFd>, table: Table, i: nat)
    requires GlobalsOk(globals, table) && i < |globals| && globals[i].open == 0
    ensures GlobalsOk(RemoveAt(globals, i), table)
    ensures forall g :: g in globals && g != globals[i] ==> g in RemoveAt(globals, i)
  {
    var rest := RemoveAt(globals, i);
    assert forall j :: 0 <= j < |rest| ==> rest[j] == globals[if j < i then j else j + 1];
    forall g | g in globals && g != globals[i] ensures g in rest {
      var j :| 0 <= j < |globals| && globals[j] == g;
      assert rest[if j < i then j else j - 1] == g;
    }
    assert Holders(table, globals[i]) == {};
    assert forall d :: d in table ==> d !in Holders(table, globals[i]);
  }

  /** Just that descriptor goes: the others keep number, permissions, cursor and entry. */
  ghost predicate WithoutNumber(processes: map<nat, Process>, processes': map<nat, Process>, p: nat, n: int) {
    && p in processes && NumberAt(processes[p].fds, n) < |processes[p].fds|
    && processes' == processes[p := processes[p].(fds := RemoveAt(processes[p].fds, NumberAt(processes[p].fds, n)))]
  }

  /** The descriptor was opened with that permission. */
  predicate Permits(processes: map<nat, Process>, p: nat, n: int, permission: char) {
    p in processes && var k := NumberAt(processes[p].fds, n);
    k < |processes[p].fds| && permission in processes[p].fds[k].permissions
  }

  function CursorOf(processes: map<nat, Process>, p: nat, n: int): int
    requires p in processes
  {
    var k := NumberAt(processes[p].fds, n);
    if k < |processes[p].fds| then processes[p].fds[k].cursor else 0
  }

  /** What a program may do with a file is what it opened it for: a descriptor opened with
      these flags permits just them, and other descriptors come and go without it. */
  lemma OpenedPermits(processes: map<nat, Process>, processes': map<nat, Process>, p: nat, fd: Fd, permission: char)
    requires p in processes && NumberAt(processes[p].fds, fd.value) == |processes[p].fds|
    requires p in processes' && processes'[p].fds == processes[p].fds + [fd]
    ensures Permits(processes', p, fd.value, permission) <==> permission in fd.permissions
  {
    var fds' := processes'[p].fds;
    assert forall k :: 0 <= k < |processes[p].fds| ==> fds'[k] == processes[p].fds[k];
    assert fds'[|processes[p].fds|] == fd;
  }

  lemma OthersPermit(processes: map<nat, Process>, processes': map<nat, Process>, p: nat, n: int, q: nat, m: int, permission: char)
    requires WithoutNumber(processes, processes', p, n) && (q, m) != (p, n)
    requires forall i, j :: 0 <= i < j < |processes[p].fds| ==> processes[p].fds[i].value != processes[p].fds[j].value
    ensures Permits(processes', q, m, permission) <==> Permits(processes, q, m, permission)
  {
    if q == p {
      SameDescriptor(processes[p].fds, NumberAt(processes[p].fds, n), m);
    }
  }

  lemma SameDescriptor(fds: seq<Fd>, k: nat, m: int)
    requires k < |fds| && fds[k].value != m
    requires forall i, j :: 0 <= i < j < |fds| ==> fds[i].value != fds[j].value
    ensures var rest := RemoveAt(fds, k);
            && (NumberAt(rest, m) < |rest| <==> NumberAt(fds, m) < |fds|)
            && (NumberAt(fds, m) < |fds| ==> rest[NumberAt(rest, m)] == fds[NumberAt(fds, m)])
  {
    var rest, i := RemoveAt(fds, k), NumberAt(fds, m);
    assert forall j :: 0 <= j < |rest| ==> rest[j] == fds[if j < k then j else j + 1];
    if i < |fds| {
      assert rest[if i < k then i else i - 1] == fds[i];
    }
  }

  /** The same descriptors with another cursor. */
  lemma CursorMoved(processes: map<nat, Process>, table: Table, p: nat, k: nat, cursor: int)
    requires ListsOk(processes, table) && p in processes && k < |processes[p].fds|
    ensures ListsOk(processes[p := processes[p].(fds := processes[p].fds[k := processes[p].fds[k].(cursor := cursor)])], table)
  {
    var fds := processes[p].fds;
    var fds' := fds[k := fds[k].(cursor := cursor)];
    assert forall j :: 0 <= j < |fds| ==> fds'[j].value == fds[j].value && fds'[j].global == fds[j].global;
    forall n | Has(fds, n) ensures Has(fds', n) {
      var j :| 0 <= j < |fds| && fds[j].value == n;
      assert fds'[j].value == n;
    }
    hide Has;
    assert ListOk(p, processes[p].(fds := fds'), table);
    ListReplaced(processes, table, p, processes[p].(fds := fds'), table);
  }

  class DescriptorTable {
    var globals: seq<GlobalFd>
    var processes: map<nat, Process>
    ghost var table: Table

    ghost predicate Valid()
      reads this, globals
    {
      GlobalsOk(globals, table) && AllOpen(globals) && ListsOk(processes, table)
    }

    ghost function Paths(): map<Descriptor, string>
      reads this
    {
      PathsOf(table)
    }

    constructor ()
      ensures Valid() && globals == [] && processes == map[] && Paths() == map[]
    {
      globals, processes, table := [], map[], map[];
    }

    /** A new program: no descriptors, numbers from 3 on. */
    method NewProcess(p: nat)
      requires Valid() && p !in processes
      modifies this`processes
      ensures Valid() && processes == old(processes)[p := Process([], 3, 0)]
    {
      processes := processes[p := Process([], 3, 0)];
    }

    /** `file_descriptor_get_by_number`: the index of the descriptor in its list. */
    method GetByNumber(p: nat, n: int) returns (k: nat)
      requires Valid() && p in processes
      ensures k == NumberAt(processes[p].fds, n)
      ensures k <= |processes[p].fds| && (k < |processes[p].fds| <==> (p, n) in table)
      ensures k < |processes[p].fds| ==> processes[p].fds[k].value == n && processes[p].fds[k].global == table[(p, n)]
    {
      k := Find(processes[p].fds, (fd: Fd) => fd.value == n);
      var test := (fd: Fd) => fd.value == n;
      assert forall j :: 0 <= j < k ==> !test(processes[p].fds[j]);
      FirstIsUnique(processes[p].fds, test, k);
      assert (p, n) in table ==> Has(processes[p].fds, n);
    }

    method GetByPath(path: string) returns (i: nat)
      requires Valid()
      ensures i <= |globals| && (i < |globals| <==> OpenOn(Paths(), path) != {})
      ensures i < |globals| ==> globals[i].path == path
      ensures i == |globals| ==> forall g :: g in globals ==> g.path != path
    {
      var test := (g: GlobalFd) => g.path == path;
      i := Find(globals, test);
      assert forall j :: 0 <= j < i ==> !test(globals[j]);
      if i < |globals| {
        HoldersOfPath(globals, table, globals[i]);
        assert globals[i] in globals;
        assert |Holders(table, globals[i])| > 0;
      } else {
        assert forall d :: d in table ==> table[d].path != path;
        assert OpenOn(Paths(), path) == {};
      }
    }

    /** `file_descriptor_create`, on an entry of the global list. */
    method CreateFd(p: nat, g: GlobalFd, permissions: string) returns (n: int)
      requires GlobalsOk(globals, table) && ListsOk(processes, table) && g in globals && p in processes
      modifies this`processes, this`table, g`open
      ensures ListsOk(processes, table) && GlobalsOk(globals, table)
      ensures (forall g' :: g' in globals && g' != g ==> old(g'.open) > 0) ==> AllOpen(globals)
      ensures (p, n) !in old(Paths()) && Paths() == old(Paths())[(p, n) := g.path]
      ensures n == old(processes)[p].incrementalFD && (p, n) !in old(table) && table == old(table)[(p, n) := g]
      ensures g.open == old(g.open) + 1
      ensures processes == old(processes)[p := old(processes)[p].(fds := old(processes)[p].fds + [Fd(n, permissions, 0, g)],
                                                                  incrementalFD := n + 1)]
    {
      hide ListsOk, Has, PathsOf;
      PathsWith(table, (p, processes[p].incrementalFD), g);
      var process := processes[p];
      var fd := Fd(process.incrementalFD, permissions, 0, g);
      n := fd.value;
      ListsWith(processes, table, p, fd);
      g.open := g.open + 1;
      processes := processes[p := process.(fds := process.fds + [fd], incrementalFD := n + 1)];
      forall g' { HoldersAdd(table, (p, n), g, g'); }
      table := table[(p, n) := g];
    }

    /** `file_descriptor_global_create` */
    method CreateGlobal(path: string) returns (g: GlobalFd)
      requires GlobalsOk(globals, table) && forall g :: g in globals ==> g.path != path
      modifies this`globals
      ensures fresh(g) && g.path == path && g.open == 0 && globals == old(globals) + [g]
      ensures GlobalsOk(globals, table)
    {
      g := new GlobalFd(path);
      globals := globals + [g];
      assert Holders(table, g) == {};
    }
 
    method Interrupt(p: nat, code: int)
      requires Valid() && p in processes
      modifies this`processes
      ensures Valid() && processes == old(processes)[p := old(processes)[p].(interruptionCode := code)]
    {
      ListsCoded(processes, table, p, code);
      processes := processes[p := processes[p].(interruptionCode := code)];
    }

    /** `handle_cpu_abrir`: the descriptor's number, or 0.  `inFileSystem` and `created` are the
        FileSystem's answers. */
    method Open(p: nat, path: string, flags: string, inFileSystem: bool, created: bool) returns (answer: int)
      requires Valid() && p in processes
      modifies this, globals
      ensures Valid() && forall g :: g in globals ==> g in old(globals) || fresh(g)
      ensures var opens := OpenOn(old(Paths()), path) != {} || inFileSystem || ('c' in flags && created);
              var process := old(processes)[p];
              if opens then
                && answer == process.incrementalFD && (p, answer) !in old(Paths())
                && Paths() == old(Paths())[(p, answer) := path]
                // the new descriptor has these permissions and points to the entry of the path
                && (p, answer) in table && table[(p, answer)] in globals && table[(p, answer)].path == path
                && processes == old(processes)[p := process.(incrementalFD := answer + 1,
                                  fds := process.fds + [Fd(answer, flags, 0, table[(p, answer)])])]
              else
                && answer == 0 && Paths() == old(Paths())
                && processes == old(processes)[p := process.(interruptionCode :=
                                  if 'c' in flags then ERROR_FS_OPERATION else ERROR_FILE_CREATE_PERMISION)]
    {
      hide ListsOk, ListOk, Has, PathsOf, OpenOn, GlobalsOk;
      var i := GetByPath(path);
      if i < |globals| {
        assert globals[i] in globals;
        answer := CreateFd(p, globals[i], flags);
      } else if inFileSystem || ('c' in flags && created) {
        var g := CreateGlobal(path);
        answer := CreateFd(p, g, flags);
      } else {
        answer := 0;
        Interrupt(p, if 'c' in flags then ERROR_FS_OPERATION else ERROR_FILE_CREATE_PERMISION);
      }
    }

    method Uncount(d: Descriptor, g: GlobalFd)
      requires GlobalsOk(globals, table) && d in table && table[d] == g && g.open > 0
      modifies this`table, g`open
      ensures GlobalsOk(globals, table)
      ensures table == old(table) - {d} && g.open == old(g.open) - 1
      ensures g in globals
    {
      forall g' { HoldersRemove(table, d, g'); }
      g.open := g.open - 1;
      table := table - {d};
    }

    /** One reference less; the entry goes with its last one. */
    method DropReference(d: Descriptor, g: GlobalFd)
      requires GlobalsOk(globals, table) && AllOpen(globals) && d in table && table[d] == g && g in globals
      modifies this`globals, this`table, g`open
      ensures GlobalsOk(globals, table) && AllOpen(globals)
      ensures table == old(table) - {d} && Paths() == old(Paths()) - {d}
      ensures forall g' :: g' in globals ==> g' in old(globals)
    {
      hide PathsOf, GlobalsOk, Holders;
      PathsWithout(table, d);
      Uncount(d, g);
      if g.open == 0 {
        var i := IndexOf(g);
        GlobalsWithout(globals, table, i);
        globals := globals[..i] + globals[i + 1..];
      }
    }

    /** The entry with the same path: the entry itself. */
    method IndexOf(g: GlobalFd) returns (i: nat)
      requires GlobalsOk(globals, table) && g in globals
      ensures i < |globals| && globals[i] == g && i == FirstWhere(globals, (e: GlobalFd) => e.path == g.path)
    {
      var test := (e: GlobalFd) => e.path == g.path;
      i := Find(globals, test);
      var k :| 0 <= k < |globals| && globals[k] == g;
      assert test(globals[k]);
    }

    /** `handle_cpu_cerrar` */
    method Close(p: nat, n: int) returns (answer: int)
      requires Valid() && p in processes
      modifies this, globals
      ensures Valid() && forall g :: g in globals ==> g in old(globals)
      ensures if (p, n) in old(Paths()) then
                && answer == 1 && Paths() == old(Paths()) - {(p, n)}
                && WithoutNumber(old(processes), processes, p, n)
              else
                && answer == 0 && Paths() == old(Paths())
                && processes == old(processes)[p := old(processes)[p].(interruptionCode := ERROR_FD_DOES_NOT_EXIST)]
    {
      hide ListsOk, ListOk, Has, PathsOf, GlobalsOk;
      PathsKeys(table, (p, n));
      var k := GetByNumber(p, n);
      if k == |processes[p].fds| {
        answer := 0;
        Interrupt(p, ERROR_FD_DOES_NOT_EXIST);
      } else {
        answer := 1;
        ListsWithout(processes, table, p, k);
        InGlobals(globals, table, (p, n));
        DropReference((p, n), processes[p].fds[k].global);
        RemoveFd(p, k);
      }
    }

    /** `handle_cpu_mover_cursor` */
    method MoveCursor(p: nat, n: int, position: int)
      requires Valid() && p in processes
      modifies this`processes
      ensures Valid() && Paths() == old(Paths())
      ensures if (p, n) in old(Paths()) then
                && NumberAt(old(processes)[p].fds, n) < |old(processes)[p].fds|
                && var k := NumberAt(old(processes)[p].fds, n);
                processes == old(processes)[p := old(processes)[p].(fds :=
                  old(processes)[p].fds[k := old(processes)[p].fds[k].(cursor := position)])]
              else
                processes == old(processes)[p := old(processes)[p].(interruptionCode := ERROR_FD_DOES_NOT_EXIST)]
    {
      hide ListsOk, ListOk, Has, PathsOf, GlobalsOk;
      PathsKeys(table, (p, n));
      var k := GetByNumber(p, n);
      if k == |processes[p].fds| {
        Interrupt(p, ERROR_FD_DOES_NOT_EXIST);
      } else {
        CursorMoved(processes, table, p, k, position);
        processes := processes[p := processes[p].(fds := processes[p].fds[k := processes[p].fds[k].(cursor := position)])];
      }
    }

    /** What the FileSystem is asked through a descriptor: the path it was opened on and its
        cursor, if it was opened with that permission; else the program is interrupted. */
    method Access(p: nat, n: int, permission: char, refusal: int) returns (request: Option<(string, int)>)
      requires Valid() && p in processes
      modifies this`processes
      ensures Valid() && Paths() == old(Paths())
      ensures (p, n) !in old(Paths()) ==>
                request == None && processes == old(processes)[p := old(processes)[p].(interruptionCode := ERROR_FD_DOES_NOT_EXIST)]
      ensures (p, n) in old(Paths()) ==> NumberAt(old(processes)[p].fds, n) < |old(processes)[p].fds|
      ensures (p, n) in old(Paths()) ==>
                var fd := old(processes)[p].fds[NumberAt(old(processes)[p].fds, n)];
                if permission in fd.permissions then
                  request == Some((old(Paths())[(p, n)], fd.cursor)) && processes == old(processes)
                else
                  request == None && processes == old(processes)[p := old(processes)[p].(interruptionCode := refusal)]
    {
      hide ListsOk, ListOk, Has, PathsOf, GlobalsOk;
      PathsKeys(table, (p, n));
      request := None;
      var k := GetByNumber(p, n);
      if k == |processes[p].fds| {
        Interrupt(p, ERROR_FD_DOES_NOT_EXIST);
      } else if permission !in processes[p].fds[k].permissions {
        Interrupt(p, refusal);
      } else {
        request := Some((processes[p].fds[k].global.path, processes[p].fds[k].cursor));
      }
    }

    /** `handle_cpu_escribir` on a file; `response` is what the FileSystem answers if it is asked. */
    method WriteFile(p: nat, n: int, response: int) returns (request: Option<(string, int)>)
      requires Valid() && p in processes
      modifies this`processes
      ensures Valid() && Paths() == old(Paths())
      ensures request.Some? <==> (p, n) in old(Paths()) && Permits(old(processes), p, n, 'w')
      ensures request.Some? ==> request == Some((old(Paths())[(p, n)], CursorOf(old(processes), p, n)))
      ensures var code :=
                if (p, n) !in old(Paths()) then ERROR_FD_DOES_NOT_EXIST
                else if request.None? then ERROR_FILE_NO_WRITE_PERMISION
                else if response > 0 then old(processes)[p].interruptionCode
                else if response == -ENOSPC then -ENOSPC else ERROR_FS_OPERATION;
              processes == old(processes)[p := old(processes)[p].(interruptionCode := code)]
    {
      hide ListsOk, ListOk, Has, PathsOf, GlobalsOk, NumberAt;
      request := Access(p, n, 'w', ERROR_FILE_NO_WRITE_PERMISION);
      if request.Some? && response <= 0 {
        Interrupt(p, if response == -ENOSPC then -ENOSPC else ERROR_FS_OPERATION);
      }
      assert old(processes)[p := old(processes)[p]] == old(processes);
    }

    /** `handle_cpu_leer`, as far as the question to the FileSystem. */
    method ReadFile(p: nat, n: int) returns (request: Option<(string, int)>)
      requires Valid() && p in processes
      modifies this`processes
      ensures Valid() && Paths() == old(Paths())
      ensures request.Some? <==> (p, n) in old(Paths()) && Permits(old(processes), p, n, 'r')
      ensures request.Some? ==> request == Some((old(Paths())[(p, n)], CursorOf(old(processes), p, n)))
      ensures var code :=
                if (p, n) !in old(Paths()) then ERROR_FD_DOES_NOT_EXIST
                else if request.None? then ERROR_FILE_NO_READ_PERMISION else old(processes)[p].interruptionCode;
              processes == old(processes)[p := old(processes)[p].(interruptionCode := code)]
    {
      hide ListsOk, ListOk, Has, PathsOf, GlobalsOk, NumberAt;
      request := Access(p, n, 'r', ERROR_FILE_NO_READ_PERMISION);
      assert old(processes)[p := old(processes)[p]] == old(processes);
    }

    method RemoveFd(p: nat, k: nat)
      requires p in processes && k < |processes[p].fds|
      modifies this`processes
      ensures processes == old(processes)[p := old(processes)[p].(fds := RemoveAt(old(processes)[p].fds, k))]
    {
      processes := processes[p := processes[p].(fds := RemoveAt(processes[p].fds, k))];
    }

    /** `handle_cpu_borrar`: only the single holder deletes.  `deleted` is the FileSystem's
        answer. */
    method Delete(p: nat, n: int, deleted: bool) returns (answer: int)
      requires Valid() && p in processes
      modifies this, globals
      ensures Valid() && forall g :: g in globals ==> g in old(globals)
      ensures answer == 1 <==> (p, n) in old(Paths()) && OpenOn(old(Paths()), old(Paths())[(p, n)]) == {(p, n)} && deleted
      ensures if answer == 1 then
                && Paths() == old(Paths()) - {(p, n)}
                && WithoutNumber(old(processes), processes, p, n)
              else
                && answer == 0 && Paths() == old(Paths())
                && processes == old(processes)[p := old(processes)[p].(interruptionCode :=
                                  if (p, n) !in old(Paths()) then ERROR_FD_DOES_NOT_EXIST
                                  else if OpenOn(old(Paths()), old(Paths())[(p, n)]) != {(p, n)} then ERROR_FILE_BAD_DELETE
                                  else ERROR_FS_OPERATION)]
    {
      hide ListsOk, ListOk, Has, PathsOf, GlobalsOk, OpenOn, Holders;
      PathsKeys(table, (p, n));
      var k := GetByNumber(p, n);
      if k == |processes[p].fds| {
        answer := 0;
        Interrupt(p, ERROR_FD_DOES_NOT_EXIST);
        return;
      }
      var g := processes[p].fds[k].global;
      InGlobals(globals, table, (p, n));
      SoleHolder(globals, table, (p, n));
      if g.open > 1 {
        answer := 0;
        Interrupt(p, ERROR_FILE_BAD_DELETE);
      } else if deleted {
        answer := 1;
        ListsWithout(processes, table, p, k);
        RemoveEntry((p, n), g);
        RemoveFd(p, k);
      } else {
        answer := 0;
        Interrupt(p, ERROR_FS_OPERATION);
      }
    }

    /** The entry goes; its count is no longer looked at. */
    method RemoveEntry(d: Descriptor, g: GlobalFd)
      requires GlobalsOk(globals, table) && AllOpen(globals) && d in table && table[d] == g && g.open == 1
      modifies this`globals, this`table
      ensures GlobalsOk(globals, table) && AllOpen(globals)
      ensures table == old(table) - {d} && Paths() == old(Paths()) - {d}
      ensures forall g' :: g' in globals ==> g' in old(globals)
    {
      hide PathsOf, Holders, GlobalsOk;
      PathsWithout(table, d);
      InGlobals(globals, table, d);
      var i := IndexOf(g);
      EntryWithout(globals, table, i, d);
      globals := globals[..i] + globals[i + 1..];
      table := table - {d};
    }

    /** `close_opened_files`, when a program finishes. */
    method CloseOpenedFiles(p: nat)
      requires Valid() && p in processes
      modifies this, globals
      ensures Valid() && forall g :: g in globals ==> g in old(globals)
      ensures forall d :: d in Paths() <==> d in old(Paths()) && d.0 != p
      ensures forall d :: d in Paths() ==> Paths()[d] == old(Paths())[d]
      ensures processes == old(processes)[p := old(processes)[p].(fds := [])]
    {
      hide GlobalsOk, ListOk, Has, Holders;
      var fds := processes[p].fds;
      ghost var own := processes[p];
      assert ListOk(p, own, table);
      for k := 0 to |fds|
        invariant GlobalsOk(globals, table) && AllOpen(globals) && forall g :: g in globals ==> g in old(globals)
        invariant processes == old(processes)
        invariant forall d :: d in table <==> d in old(table) && forall j :: 0 <= j < k ==> d != (p, fds[j].value)
        invariant forall d :: d in table ==> table[d] == old(table)[d]
      {
        OwnDescriptors(p, own, old(table), k);
        InGlobals(globals, table, (p, fds[k].value));
        DropFinished((p, fds[k].value), fds[k].global);
      }
      OwnGone(p, own, old(table), table);
      ListsEmptied(processes, old(table), p, table);
      processes := processes[p := processes[p].(fds := [])];
    }

    /** `deleteFileFromProcessFileTable`: the first entry with no references goes. */
    method DropFinished(d: Descriptor, g: GlobalFd)
      requires GlobalsOk(globals, table) && AllOpen(globals) && d in table && table[d] == g && g in globals
      modifies this`globals, this`table, g`open
      ensures GlobalsOk(globals, table) && AllOpen(globals)
      ensures table == old(table) - {d}
      ensures forall g' :: g' in globals ==> g' in old(globals)
    {
      hide GlobalsOk, Holders;
      Uncount(d, g);
      var i: nat := 0;
      while i < |globals| && globals[i].open != 0
        invariant i <= |globals|
        invariant forall j :: 0 <= j < i ==> globals[j].open != 0
      {
        i := i + 1;
      }
      if i < |globals| {
        assert globals[i] == g;
        GlobalsWithout(globals, table, i);
        globals := globals[..i] + globals[i + 1..];
      }
    }
  }
}
