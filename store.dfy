/**
 * The database session the endpoints work on: one object whose tables the
 * endpoints update in place. Commit, rollback and refresh are not modelled:
 * an endpoint that fails leaves every table as it was.
 */
module Store {
  import opened Records

  class Db {
    var tenants: seq<Tenant>
    var farms: seq<Farm>
    var sections: seq<Section>
    var devices: seq<Device>
    var types: seq<PeripheralType>
    var mappings: seq<Mapping>
    var schedules: seq<Schedule>

    constructor (tenants: seq<Tenant>, farms: seq<Farm>, sections: seq<Section>, devices: seq<Device>,
                 types: seq<PeripheralType>, mappings: seq<Mapping>, schedules: seq<Schedule>)
      ensures this.tenants == tenants && this.farms == farms && this.sections == sections
      ensures this.devices == devices && this.types == types
      ensures this.mappings == mappings && this.schedules == schedules
    {
      this.tenants := tenants;
      this.farms := farms;
      this.sections := sections;
      this.devices := devices;
      this.types := types;
      this.mappings := mappings;
      this.schedules := schedules;
    }
  }
}
