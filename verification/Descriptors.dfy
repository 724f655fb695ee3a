/** Descriptor tables: lowest-free allocation (POSIX.1-2017 System Interfaces, section 2.14), dup2,
    close and the close-on-exec sweep of execve, and what the supervisor's child does with them. */
module Descriptors {
  type Fd = nat

  /** An open file description: one the supervisor was started with, or one of the four it creates. */
  datatype File = Inherited(id: nat) | OutFile | ErrFile | PipeRead | PipeWrite

  datatype Desc = Desc(file: File, cloexec: bool)

  type Table = map<Fd, Desc>

  /** The four descriptors the supervisor creates before it forks. */
  datatype Wiring = Wiring(out: Fd, err: Fd, rd: Fd, wr: Fd)

  function Below(k: nat): (s: set<Fd>)
    ensures forall j: Fd :: j in s <==> j < k
  {
    if k == 0 then {} else Below(k - 1) + {k - 1}
  }

  function LowestFrom(t: Table, k: nat): (fd: Fd)
    requires Below(k) <= t.Keys
    ensures k <= fd && fd !in t && Below(fd) <= t.Keys
    decreases t.Keys - Below(k)
  {
    if k !in t then k else LowestFrom(t, k + 1)
  }

  function LowestFree(t: Table): (fd: Fd)
    ensures fd !in t && forall k: nat :: k < fd ==> k in t
  {
    LowestFrom(t, 0)
  }

  function Allocate(t: Table, file: File): Table {
    t[LowestFree(t) := Desc(file, true)]
  }

  function Close(t: Table, fd: Fd): Table {
    t - {fd}
  }

  /** dup2 clears close-on-exec on the copy, and does nothing at all when both numbers agree. */
  function Dup2(t: Table, source: Fd, target: Fd): Table {
    if source !in t || source == target then t else t[target := Desc(t[source].file, false)]
  }

  function Sweep(t: Table): Table {
    map fd | fd in t && !t[fd].cloexec :: t[fd]
  }

  predicate Holds(t: Table, file: File) {
    exists fd :: fd in t && t[fd].file == file
  }

  /** A table in which nothing the supervisor is about to create is open yet. */
  ghost predicate Pristine(t: Table) {
    forall fd :: fd in t ==> t[fd].file.Inherited?
  }

  /** The supervisor's table after both opens and pipe2. */
  function Wired(t: Table): Table {
    Allocate(Allocate(Allocate(Allocate(t, OutFile), ErrFile), PipeRead), PipeWrite)
  }

  function WiringOf(t: Table): Wiring {
    var t1 := Allocate(t, OutFile);
    var t2 := Allocate(t1, ErrFile);
    var t3 := Allocate(t2, PipeRead);
    Wiring(LowestFree(t), LowestFree(t1), LowestFree(t2), LowestFree(t3))
  }

  /** The four numbers are fresh and ascending, whatever was open before; so the report end of the
      pipe is never 0, 1 or 2 and no dup2 of the child can clobber it. */
  lemma WiringAscends(t: Table)
    ensures var n := WiringOf(t);
            && n.out < n.err < n.rd < n.wr && 3 <= n.wr
            && n.out !in t && n.err !in t && n.rd !in t && n.wr !in t
            && Wired(t) == t[n.out := Desc(OutFile, true)][n.err := Desc(ErrFile, true)]
                            [n.rd := Desc(PipeRead, true)][n.wr := Desc(PipeWrite, true)]
  {
    var t1 := Allocate(t, OutFile);
    var t2 := Allocate(t1, ErrFile);
    var t3 := Allocate(t2, PipeRead);
    NextFreeIsHigher(t, OutFile);
    NextFreeIsHigher(t1, ErrFile);
    NextFreeIsHigher(t2, PipeRead);
  }

  lemma NextFreeIsHigher(t: Table, file: File)
    ensures LowestFree(t) < LowestFree(Allocate(t, file))
  {
    assert LowestFree(t) in Allocate(t, file);
  }

  /** The effect on the child's own table of its setup step number `step`. The nine steps are
      close(read end), setpgid, limits, chdir, dup2 stdout, dup2 stderr, close, close, execve. */
  function AfterStep(t: Table, n: Wiring, step: nat): Table {
    match step
    case 0 => Close(t, n.rd)
    case 4 => Dup2(t, n.out, 1)
    case 5 => Dup2(t, n.err, 2)
    case 6 => Close(t, n.out)
    case 7 => Close(t, n.err)
    case 8 => Sweep(t)
    case _ => t
  }

  function TableAt(t: Table, n: Wiring, pc: nat): Table {
    if pc == 0 then t else AfterStep(TableAt(t, n, pc - 1), n, pc - 1)
  }

  /** The table the executed image starts with. */
  function ImageTable(t: Table): Table {
    WiringAscends(t);
    TableAt(Wired(t), WiringOf(t), 9)
  }

  predicate RedirectedAsAsked(t: Table) {
    && 1 in t && t[1].file == OutFile
    && 2 in t && t[2].file == ErrFile
  }

  /** The nine steps written out. */
  lemma AllSteps(t: Table, n: Wiring)
    ensures TableAt(t, n, 8) == Close(Close(Dup2(Dup2(Close(t, n.rd), n.out, 1), n.err, 2), n.out), n.err)
    ensures TableAt(t, n, 9) == Sweep(TableAt(t, n, 8))
  {
    FirstSteps(t, n);
    var t5 := Dup2(Close(t, n.rd), n.out, 1);
    assert TableAt(t, n, 5) == t5;
    assert TableAt(t, n, 6) == Dup2(t5, n.err, 2);
    assert TableAt(t, n, 7) == Close(TableAt(t, n, 6), n.out);
  }

  /** The steps before execve, with the four new descriptors above 2 (or stdout's at a closed 0). */
  lemma Rewired(t: Table, n: Wiring, w: Table)
    requires 1 in t && 2 in t && n.out !in t && n.err !in t && n.rd !in t && n.wr !in t
    requires n.out < n.err < n.rd < n.wr
    requires w == t[n.out := Desc(OutFile, true)][n.err := Desc(ErrFile, true)]
                   [n.rd := Desc(PipeRead, true)][n.wr := Desc(PipeWrite, true)]
    ensures Close(Close(Dup2(Dup2(Close(w, n.rd), n.out, 1), n.err, 2), n.out), n.err)
            == t[n.wr := Desc(PipeWrite, true)][1 := Desc(OutFile, false)][2 := Desc(ErrFile, false)]
  {
    assert n.out != 1 && n.out != 2 && n.err > 2;
    var t4 := Close(w, n.rd);
    var t6 := t4[1 := Desc(OutFile, false)][2 := Desc(ErrFile, false)];
    assert Dup2(t4, n.out, 1) == t4[1 := Desc(OutFile, false)];
    assert Dup2(t4[1 := Desc(OutFile, false)], n.err, 2) == t6;
  }

  /** With 1 and 2 open at entry the image starts with exactly what it would have inherited, except
      that 1 and 2 are the two output files: no descriptor of the supervisor leaks into it. */
  lemma ImageInheritsNothingElse(t: Table)
    requires 1 in t && 2 in t
    ensures ImageTable(t) == Sweep(t)[1 := Desc(OutFile, false)][2 := Desc(ErrFile, false)]
  {
    WiringAscends(t);
    AllSteps(Wired(t), WiringOf(t));
    Rewired(t, WiringOf(t), Wired(t));
  }

  lemma FirstSteps(t: Table, n: Wiring)
    ensures TableAt(t, n, 4) == Close(t, n.rd)
  {
    assert TableAt(t, n, 1) == Close(t, n.rd);
    assert TableAt(t, n, 2) == TableAt(t, n, 1);
    assert TableAt(t, n, 3) == TableAt(t, n, 2);
  }

  /** Between the two dup2 steps descriptor 1 is the output file, whatever was open at entry. */
  lemma OutputFirst(t: Table)
    ensures var table := TableAt(Wired(t), WiringOf(t), 5); 1 in table && table[1].file == OutFile
  {
    WiringAscends(t);
    FirstSteps(Wired(t), WiringOf(t));
    assert WiringOf(t).out in Close(Wired(t), WiringOf(t).rd);
  }

  /** The redirection comes out as asked exactly when descriptors 1 and 2 were open at entry.
      Descriptor 0 does not matter. */
  lemma RedirectionExactly(t: Table)
    requires Pristine(t)
    ensures RedirectedAsAsked(ImageTable(t)) <==> 1 in t && 2 in t
  {
    WiringAscends(t);
    if 1 in t && 2 in t {
      ImageInheritsNothingElse(t);
    } else {
      var n, w := WiringOf(t), Wired(t);
      AllSteps(w, n);
      LostDescriptor(t);
      assert 1 !in TableAt(w, n, 8) || 2 !in TableAt(w, n, 8);
    }
  }

  /** With 1 or 2 closed at entry, one of the output files lands on a number the child then closes. */
  lemma LostDescriptor(t: Table)
    requires !(1 in t && 2 in t)
    ensures var n := WiringOf(t); n.out in {1, 2} || n.err in {1, 2}
  {
    WiringAscends(t);
    var c: Fd := if 1 in t then 2 else 1;
    assert WiringOf(t).out <= c;
    assert WiringOf(t).out == c || c !in Allocate(t, OutFile);
    assert WiringOf(t).out == c || WiringOf(t).err <= c;
  }

  /** However far the supervisor gets, closing what it opened restores its table: after one open, after
      two, after the pipe when the fork fails, and in the order it closes when the fork succeeds. */
  lemma ClosingRestores(t: Table)
    ensures Close(Allocate(t, OutFile), WiringOf(t).out) == t
    ensures Close(Close(Allocate(Allocate(t, OutFile), ErrFile), WiringOf(t).out), WiringOf(t).err) == t
    ensures var n := WiringOf(t);
            && Close(Close(Close(Close(Wired(t), n.rd), n.wr), n.out), n.err) == t
            && Close(Close(Close(Close(Wired(t), n.wr), n.out), n.err), n.rd) == t
  {
    WiringAscends(t);
    ClosingFour(t, Wired(t), WiringOf(t));
    var t1 := Allocate(t, OutFile);
    assert Close(t1, LowestFree(t)) == t;
    assert Allocate(t1, ErrFile) == t1[LowestFree(t1) := Desc(ErrFile, true)];
  }

  /** And each of those closes is of a descriptor that is open at the time. */
  lemma ClosesWhatIsOpen(t: Table)
    ensures WiringOf(t).out in Allocate(t, OutFile)
    ensures var n, t2 := WiringOf(t), Allocate(Allocate(t, OutFile), ErrFile); n.out in t2 && n.err in Close(t2, n.out)
    ensures var n, w := WiringOf(t), Wired(t);
            && n.rd in w && n.wr in Close(w, n.rd) && n.out in Close(Close(w, n.rd), n.wr)
            && n.err in Close(Close(Close(w, n.rd), n.wr), n.out)
    ensures var n, w := WiringOf(t), Wired(t);
            && n.wr in w && n.out in Close(w, n.wr) && n.err in Close(Close(w, n.wr), n.out)
            && n.rd in Close(Close(Close(w, n.wr), n.out), n.err)
  {
    WiringAscends(t);
  }

  lemma ClosingFour(t: Table, w: Table, n: Wiring)
    requires n.out !in t && n.err !in t && n.rd !in t && n.wr !in t
    requires w == t[n.out := Desc(OutFile, true)][n.err := Desc(ErrFile, true)]
                   [n.rd := Desc(PipeRead, true)][n.wr := Desc(PipeWrite, true)]
    ensures Close(Close(Close(Close(w, n.rd), n.wr), n.out), n.err) == t
    ensures Close(Close(Close(Close(w, n.wr), n.out), n.err), n.rd) == t
  {
  }

  /** The child keeps the report end of the pipe until execve, and execve always closes it. */
  lemma ReportEndLivesUntilExec(t: Table, pc: nat)
    requires Pristine(t) && pc <= 9
    ensures var table := TableAt(Wired(t), WiringOf(t), pc);
            && (pc <= 8 ==> WiringOf(t).wr in table && table[WiringOf(t).wr] == Desc(PipeWrite, true))
            && (forall fd :: fd in table && table[fd].file == PipeWrite ==> fd == WiringOf(t).wr && table[fd].cloexec)
            && (Holds(table, PipeWrite) <==> pc <= 8)
  {
    WiringAscends(t);
    var n, w := WiringOf(t), Wired(t);
    if pc == 0 {
      assert w[n.wr].file == PipeWrite;
    } else {
      ReportEndLivesUntilExec(t, pc - 1);
      if pc <= 8 {
        assert TableAt(w, n, pc)[n.wr].file == PipeWrite;
      }
    }
  }
}
