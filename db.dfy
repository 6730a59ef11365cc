/** The database behind the pg pool: four tables held in one store that every route reads and writes. */
module Db {
  import opened Common
  import opened Schema

  class Store {
    var admins: seq<Admin>
    var links: seq<MagicLink>
    var elevators: seq<Elevator>
    var reports: seq<Report>
    /** The next fresh row id; stands for gen_random_uuid(). */
    var nextId: nat

    /** The schema's constraints hold. */
    ghost predicate Valid()
      reads this
    {
      Consistent(admins, links, elevators, reports, nextId)
    }

    /** A freshly initialised, empty database. */
    constructor ()
      ensures Valid()
      ensures admins == [] && links == [] && elevators == [] && reports == [] && nextId == 0
    {
      admins, links, elevators, reports, nextId := [], [], [], [], 0;
    }
  }
}
