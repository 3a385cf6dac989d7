/** What a modfile says about a module, as far as the manager decides by it. */
module Modfiles {
  datatype Mod = Mod(id: string, version: string, dependencies: set<string>, services: map<string, string>)

  /** The images of the services. */
  function Images(mod: Mod): set<string> {
    mod.services.Values
  }
}
