/** main.c in short: create the VM, load the program files, run cycles. */
module Startup {
  import opened Timers
  import opened VmStrings
  import opened Crc32
  import opened Crc32Table
  import opened Machine
  import opened Loader
  import opened Runtime
  import opened Cycles
  import HashTable
  import opened Handlers
  import opened VmRuntime

  /** The machine after a load, successful or not, when the clock shows `now`. */
  function Booted(bytes: nat, files: seq<File>, start: nat, now: nat): (m: Machine)
    requires bytes <= VM_MEM_BYTES
    ensures m.Valid() && |m.mem| == bytes
  {
    Created(bytes).(mem := Store(Created(bytes).mem, start, Written(files, start, bytes)), timeMs := now)
  }

  /** No fetch of any loaded module straddles the end of memory. */
  lemma ModulesFit(files: seq<File>, start: nat, m: Machine)
    requires m.Valid() && start + |Image(files)| + 3 <= |m.mem|
    ensures AllFit(m, Layout(files, start))
  {
    hide Layout, Image;
    forall i | 0 <= i < |files|
      ensures Fits(m, Layout(files, start)[i])
    {
      LayoutContiguous(files, start, i);
      assert files == files[..i + 1] + files[i + 1..];
      ImageAppend(files[..i + 1], files[i + 1..]);
    }
  }

  /** At most `k` cycles from the loaded image on, with an empty cache. */
  function Ran(bytes: nat, files: seq<File>, start: nat, now: nat, s: Setting, cycleMs: nat, k: nat): Snapshot
    requires bytes <= VM_MEM_BYTES && start + |Image(files)| + 3 <= bytes
  {
    var m := Booted(bytes, files, start, now);
    ModulesFit(files, start, m);
    Cycles.Cycles(Snapshot(m, map[]), Layout(files, start), s, cycleMs, k)
  }

  method LoadInto(mem: array<bv8>, start: nat, files: seq<File>) returns (modules: seq<ModuleInfo>, ok: bool)
    modifies mem
    ensures ok <==> files != [] && Loadable(files, start, mem.Length)
    ensures ok ==> modules == Layout(files, start)
    ensures mem[..] == Store(old(mem[..]), start, Written(files, start, mem.Length))
  {
    hide Image, Layout, Loadable, Store, Written, Placed;
    var crc := new Crc32Engine();
    var program := new ProgramMemory(mem, start, crc);
    ok := program.LoadPrograms(files);
    modules := program.modules;
  }

  /** Loading into the memory of a VM changes its memory alone. */
  method Load(vm: Vm, start: nat, files: seq<File>) returns (modules: seq<ModuleInfo>, ok: bool)
    requires vm.Shaped()
    modifies vm.mem
    ensures ok <==> files != [] && Loadable(files, start, vm.mem.Length)
    ensures ok ==> modules == Layout(files, start)
    ensures vm.View() == old(vm.View()).(mem := Store(old(vm.View()).mem, start, Written(files, start, vm.mem.Length)))
  {
    hide Image, Layout, Loadable, Store, Written, Placed, TimerBank.Valid;
    modules, ok := LoadInto(vm.mem, start, files);
  }

  /** Creating the VM and loading the files. */
  method PowerOn(bytes: nat, start: nat, files: seq<File>, now: nat) returns (vm: Vm, modules: seq<ModuleInfo>, ok: bool)
    requires bytes <= VM_MEM_BYTES
    ensures fresh(vm) && fresh(vm.reg) && fresh(vm.mem) && fresh(vm.timers.Repr()) && fresh(vm.cache) && fresh(vm.cache.bins)
    ensures vm.Shaped() && CacheOk(vm) && vm.cache.Map() == map[]
    ensures ok <==> files != [] && Loadable(files, start, bytes)
    ensures vm.View() == Booted(bytes, files, start, now) && (ok ==> modules == Layout(files, start))
  {
    hide Image, Layout, Loadable, Store, Written, Created, TimerBank.Valid, HashTable.Table.Valid, HashTable.Table.Map;
    vm := new Vm(bytes);
    vm.timeMs := now;
    modules, ok := Load(vm, start, files);
  }

  /** From power-on: after a load the VM is where the specification of `k` cycles from the loaded image
      leads, whatever the table, the cache and the timers did on the way; a failed load leaves it idle
      with what the loader wrote. */
  method Boot(bytes: nat, start: nat, files: seq<File>, now: nat, s: Setting, cycleMs: nat, k: nat) returns (vm: Vm, ok: bool)
    requires bytes <= VM_MEM_BYTES
    requires Loadable(files, start, bytes) ==> start + |Image(files)| + 3 <= bytes
    ensures vm.Shaped()
    ensures ok <==> files != [] && Loadable(files, start, bytes)
    ensures ok ==> Now(vm) == Ran(bytes, files, start, now, s, cycleMs, k)
    ensures !ok ==> Now(vm) == Snapshot(Booted(bytes, files, start, now), map[])
  {
    hide Image, Layout, Loadable, Store, Written, Created, CacheOk, TimerBank.Valid, HashTable.Table.Valid;
    hide HashTable.Table.Map, Cycles.Cycles;
    var modules: seq<ModuleInfo>;
    vm, modules, ok := PowerOn(bytes, start, files, now);
    if ok {
      ModulesFit(files, start, vm.View());
      RunProgram(vm, modules, s, cycleMs, k);
    }
  }
}
