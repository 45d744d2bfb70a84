/** Address spaces as the loader and the tasks use them. The space's own
    implementation (page tables, its placement policy, its overlap checks)
    is not part of this model: `create` and `map` are fallible
    collaborators whose answers come from the environment. */
module Spaces {
  import opened Wrappers
  import opened Hal
  import opened Vmos
  import Arch

  datatype MapFlags = MapFlags(read: bool, write: bool, exec: bool)

  const READ: MapFlags := MapFlags(true, false, false)
  const READ_WRITE: MapFlags := MapFlags(true, true, false)
  const READ_EXEC: MapFlags := MapFlags(true, false, true)

  datatype Mapping = Mapping(range: VRange, vmo: Vmo, offset: nat, flags: MapFlags)

  class Space {
    var mappings: seq<Mapping>

    constructor()
      ensures mappings == []
    {
      mappings := [];
    }

    /** `Space::create()`: fails with the reported fault, otherwise a
        fresh, empty space. */
    static method Create(fault: Option<Error>) returns (r: Result<Space>)
      ensures r.Err? <==> fault.Some?
      ensures r.Err? ==> r.error == fault.value
      ensures r.Ok? ==> fresh(r.value) && r.value.mappings == []
    {
      if fault.Some? {
        return Err(fault.value);
      }
      var s := new Space();
      return Ok(s);
    }

    /** `space->map(range, vmo, offset, flags)`: an absent range lets the
        space choose where (at `place`, as large as the VMO). On success
        the mapping is appended and its range returned. */
    method Map(range: Option<VRange>, vmo: Vmo, offset: nat, flags: MapFlags,
               fault: Option<Error>, place: nat) returns (r: Result<VRange>)
      modifies this
      ensures r.Err? <==> fault.Some?
      ensures r.Err? ==> r.error == fault.value && mappings == old(mappings)
      ensures r.Ok? ==> r.value == range.GetOr(VRange(place, vmo.Size()))
      ensures r.Ok? ==> mappings == old(mappings) + [Mapping(r.value, vmo, offset, flags)]
    {
      if fault.Some? {
        return Err(fault.value);
      }
      var at := range.GetOr(VRange(place, vmo.Size()));
      mappings := mappings + [Mapping(at, vmo, offset, flags)];
      return Ok(at);
    }

    /** `Space::activate()`: make this space's page-table root the active
        one on the CPU. */
    method Activate(cpu: Arch.Cpu)
      modifies cpu
      ensures cpu.log == old(cpu.log) + [Arch.Activated(this)]
    {
      cpu.Activate(this);
    }
  }
}
