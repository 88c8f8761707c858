// The token by which a builder tells its own nodes from everyone else's.
module Ownership {
  class Edit {
    var active: bool
    constructor ()
      ensures active
    {
      active := true;
    }
  }
}
