/** virtual-memory/mem.py: processes and their page maps. */
module VirtualProcesses {
  import opened Options
  import opened VirtualMemory

  /** The pages in a process's page map. */
  function Held(pages: map<nat, nat>): set<nat>
  {
    set a | a in pages :: pages[a]
  }

  /** No page under two local numbers. */
  predicate OneToOne(pages: map<nat, nat>)
  {
    forall a, b :: a in pages && b in pages && pages[a] == pages[b] ==> a == b
  }

  lemma HeldAt(pages: map<nat, nat>, a: nat)
    requires a in pages
    ensures pages[a] in Held(pages)
  {
  }

  lemma HeldAdd(pages: map<nat, nat>, a: nat, v: nat)
    requires a !in pages && v !in Held(pages) && OneToOne(pages)
    ensures Held(pages[a := v]) == Held(pages) + {v} && OneToOne(pages[a := v])
  {
    var pages' := pages[a := v];
    forall x | x in Held(pages) + {v} ensures x in Held(pages') {
      if x != v {
        var b :| b in pages && pages[b] == x;
        assert b in pages' && pages'[b] == x;
      } else {
        assert pages'[a] == v;
      }
    }
  }

  lemma HeldNone()
    ensures Held(map[]) == {} && OneToOne(map[])
  {
  }

  /** A process: its page map, the last page it used, and how long it still lives. */
  datatype Process = Process(pages: map<nat, nat>, lastPage: Option<nat>, alive: real)

  /** The page that a process turns to: again the last one, unless its number is 0, which
      counts as none, or the one under the local number. */
  predicate Turned(p: Process, p': Process, reuse: bool, local: nat)
  {
    if reuse && p.lastPage.Some? && p.lastPage.value != 0 then p'.pages == p.pages && p'.lastPage == p.lastPage
    else
      && local in p'.pages && p'.lastPage == Some(p'.pages[local])
      && p'.pages == if local in p.pages then p.pages else p.pages[local := p'.pages[local]]
  }

  /** A turn of process p: a process at the end of its life loses its pages and starts
      anew, any other turns to one page. */
  ghost predicate Ran(a: Algorithm, p: Process, pages: Pages, empty: seq<nat>,
                      p': Process, pages': Pages, empty': seq<nat>,
                      reuse: bool, local: nat, fs: bool, write: bool, life: real)
  {
    if p.alive < 1.0 then p' == Process(map[], None, life) && pages' == pages - Held(p.pages)
    else
      && p'.alive == p.alive - 1.0 && Turned(p, p', reuse, local) && p'.lastPage.Some?
      && TurnedTo(a, pages, empty, pages', empty', p'.lastPage.value, fs, write)
  }

  /** A page fault: the process lives on and turns to a page that is swapped out. */
  predicate Faulted(p: Process, pages: Pages, p': Process)
  {
    p.alive >= 1.0 && p'.lastPage.Some? && p'.lastPage.value in pages && !pages[p'.lastPage.value].valid
  }

  /** A process control block. */
  class Pcb {
    const vm: Vm
    var pages: map<nat, nat>      // local page number to page of the memory
    var lastPage: Option<nat>
    var alive: real

    /** The process's pages are there, each under one local number, and the last page
        it used is one of them: it never touches a page that was killed. */
    ghost predicate Owns()
      reads this, vm
    {
      && Held(pages) <= vm.pages.Keys && OneToOne(pages)
      && (lastPage.Some? ==> lastPage.value in Held(pages))
    }

    function P(): Process
      reads this
    {
      Process(pages, lastPage, alive)
    }

    constructor (vm: Vm, life: real)
      ensures this.vm == vm && P() == Process(map[], None, life) && Owns()
    {
      this.vm, pages, lastPage, alive := vm, map[], None, life;
    }

    /** renew: all pages of the process are killed. */
    method Renew(life: real)
      requires vm.Valid() && Owns()
      modifies this, vm`pages, vm`empty, vm`holder, vm`killedSwapped
      ensures vm.Valid() && Owns() && P() == Process(map[], None, life)
      ensures vm.pages == old(vm.pages) - Held(old(pages))
      ensures vm.Balance() == old(vm.Balance())
    {
      hide FramesOk, Swapped;
      HeldNone();
      var locals := pages.Keys;
      while locals != {}
        invariant vm.Valid() && locals <= pages.Keys && pages == old(pages) && lastPage == old(lastPage)
        invariant vm.pages == old(vm.pages) - set a | a in pages && a !in locals :: pages[a]
        invariant vm.Balance() == old(vm.Balance())
      {
        var a :| a in locals;
        vm.KillPage(pages[a]);
        locals := locals - {a};
      }
      pages, lastPage, alive := map[], None, life;
    }

    /** quant: the process ends, or touches one page, requesting it first if it is new.
        Page 0 never counts as the last page, because its number is false. */
    method Quant(reuse: bool, local: nat, fs: bool, write: bool, life: real)
      requires vm.Valid() && Owns()
      modifies this, vm`pages, vm`empty, vm`next, vm`faults, vm`accesses, vm`holder, vm`evictions, vm`killedSwapped
      ensures vm.Valid() && Owns() && vm.Balance() == old(vm.Balance())
      ensures vm.pages.Keys == old(vm.pages.Keys) - Held(old(pages)) + Held(pages)
      ensures Held(pages) !! old(vm.pages.Keys) - Held(old(pages))
      ensures Ran(vm.algorithm, old(P()), old(vm.pages), old(vm.empty), P(), vm.pages, vm.empty,
                  reuse, local, fs, write, life)
      ensures vm.accesses == old(vm.accesses) + if old(alive) < 1.0 then 0 else 1
      ensures vm.next == old(vm.next) + if old(alive) >= 1.0 && lastPage.value !in old(vm.pages) then 1 else 0
      ensures vm.faults == old(vm.faults) + if Faulted(old(P()), old(vm.pages), P()) then 1 else 0
    {
      hide Held, OneToOne, FramesOk, Swapped;
      HeldNone();
      alive := alive - 1.0;
      if alive < 0.0 {
        Renew(life);
      } else if reuse && lastPage.Some? && lastPage.value != 0 {
        vm.AccessPage(lastPage.value, write);
      } else {
        Touch(local, fs, write);
      }
    }

    /** The part of quant that turns to a page by its local number. */
    method Touch(local: nat, fs: bool, write: bool)
      requires vm.Valid() && Owns()
      modifies this`pages, this`lastPage, vm`pages, vm`empty, vm`next, vm`faults, vm`accesses, vm`holder, vm`evictions
      ensures vm.Valid() && Owns() && vm.Balance() == old(vm.Balance())
      ensures vm.pages.Keys == old(vm.pages.Keys) - Held(old(pages)) + Held(pages)
      ensures Held(pages) !! old(vm.pages.Keys) - Held(old(pages))
      ensures Turned(old(P()), P(), false, local) && alive == old(alive) && lastPage.Some?
      ensures TurnedTo(vm.algorithm, old(vm.pages), old(vm.empty), vm.pages, vm.empty, lastPage.value, fs, write)
      ensures vm.accesses == old(vm.accesses) + 1
      ensures vm.next == old(vm.next) + if lastPage.value in old(vm.pages) then 0 else 1
      ensures vm.faults ==
        old(vm.faults) + if lastPage.value in old(vm.pages) && !old(vm.pages)[lastPage.value].valid then 1 else 0
    {
      hide Held, OneToOne, FramesOk, Swapped, MadeRoom;
      if local !in pages {
        var v := vm.RequestPage(fs);
        HeldAdd(pages, local, v);
        pages := pages[local := v];
      }
      HeldAt(pages, local);
      ghost var before := vm.pages;
      vm.AccessPage(pages[local], write);
      assert before[pages[local]].valid ==> vm.pages - {pages[local]} == before - {pages[local]};
      lastPage := Some(pages[local]);
    }
  }

  /** All processes and the memory they share. */
  class System {
    const vm: Vm
    var processes: seq<Pcb>

    /** The processes' page maps divide up the live pages. Every eviction is accounted
        for: by a fault that undid it, or by a page that is still swapped out or was
        killed in that state. */
    ghost predicate Valid()
      reads this, vm, processes
    {
      && vm.Valid() && vm.evictions == vm.faults + |Swapped(vm.pages)| + vm.killedSwapped
      && (forall i :: 0 <= i < |processes| ==> processes[i].vm == vm && processes[i].Owns())
      && (forall i, j :: 0 <= i < j < |processes| ==> processes[i] != processes[j])
      && (forall i, j :: 0 <= i < j < |processes| ==> Held(processes[i].pages) !! Held(processes[j].pages))
      && (forall v :: v in vm.pages ==> exists i :: 0 <= i < |processes| && v in Held(processes[i].pages))
    }

    constructor (algorithm: Algorithm, frames: nat)
      requires frames > 0
      ensures Valid() && fresh(vm) && processes == [] && vm.pages == map[] && vm.algorithm == algorithm
    {
      vm := new Vm(algorithm, frames);
      processes := [];
    }

    method Spawn(life: real)
      requires Valid()
      modifies this`processes
      ensures Valid() && |processes| == |old(processes)| + 1 && processes[..|old(processes)|] == old(processes)
      ensures processes[|old(processes)|].P() == Process(map[], None, life)
      ensures forall i :: 0 <= i < |old(processes)| ==> processes[i].P() == old(processes[i].P())
      ensures vm.pages == old(vm.pages) && vm.empty == old(vm.empty)
    {
      hide OneToOne, FramesOk, Swapped, Held;
      HeldNone();
      var p := new Pcb(vm, life);
      processes := processes + [p];
      assert forall i :: 0 <= i < |processes| ==> processes[i] == if i < |old(processes)| then old(processes)[i] else p;
      forall v | v in vm.pages ensures exists i :: 0 <= i < |processes| && v in Held(processes[i].pages) {
        var i :| 0 <= i < |old(processes)| && v in Held(old(processes)[i].pages);
        assert v in Held(processes[i].pages);
      }
    }

    /** One turn of the inner loop of start. */
    method Turn(k: nat, reuse: bool, local: nat, fs: bool, write: bool, life: real) returns (ghost mid: Pages)
      requires Valid() && k < |processes|
      modifies vm, processes[k]
      ensures Valid() && vm.pages == AllAged(mid)
      ensures Ran(vm.algorithm, old(processes[k].P()), old(vm.pages), old(vm.empty), processes[k].P(), mid, vm.empty,
                  reuse, local, fs, write, life)
      ensures vm.faults ==
        old(vm.faults) + if Faulted(old(processes[k].P()), old(vm.pages), processes[k].P()) then 1 else 0
      ensures vm.accesses == old(vm.accesses) + if old(processes[k].alive) < 1.0 then 0 else 1
    {
      hide OneToOne, FramesOk, Swapped, Held, Ran;
      processes[k].Quant(reuse, local, fs, write, life);
      mid := vm.pages;
      forall i | 0 <= i < |processes| && i != k
        ensures processes[i].pages == old(processes[i].pages) && processes[i].Owns()
        ensures Held(processes[i].pages) !! Held(processes[k].pages)
      {
        assert processes[i] != processes[k];
        assert Held(processes[i].pages) !! old(Held(processes[k].pages));
      }
      forall v | v in vm.pages ensures exists i :: 0 <= i < |processes| && v in Held(processes[i].pages) {
        if v in Held(processes[k].pages) {
          assert v in Held(processes[k].pages);
        } else {
          var i :| 0 <= i < |processes| && v in old(Held(processes[i].pages));
          assert v in Held(processes[i].pages);
        }
      }
      Age();
    }

    method Age()
      requires Valid()
      modifies vm`pages
      ensures Valid() && vm.pages == AllAged(old(vm.pages))
    {
      hide OneToOne, FramesOk, Swapped, Held;
      vm.ResetBits();
    }
  }
}
