/** The database every repository reads and writes: one mutable set of tables. */
module Store {
  import opened Schema

  class Database {
    var tables: Tables

    /** A fresh, empty database. */
    constructor ()
      ensures tables == EmptyTables && Consistent(tables)
    {
      tables := EmptyTables;
    }
  }
}
