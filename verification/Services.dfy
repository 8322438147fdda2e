/** Configured services and the names of the services they depend on. */
module Services {
  datatype Service = Service(name: string, dependencies: seq<string>)

  function Names(services: seq<Service>): set<string> {
    set i | 0 <= i < |services| :: services[i].name
  }

  predicate UniqueNames(services: seq<Service>) {
    forall i, j :: 0 <= i < j < |services| ==> services[i].name != services[j].name
  }
}
