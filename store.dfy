/** The backing spreadsheet behind the connection: worksheets by name. */
module Store {
  import opened Sheet

  /** The worksheet called `name`, if there is one. */
  function Lookup(sheets: map<string, Table>, name: string): Option<Table>
  {
    if name in sheets then Some(sheets[name]) else None
  }

  class SheetStore {
    var sheets: map<string, Table>

    constructor (initial: map<string, Table>)
      ensures sheets == initial
    {
      sheets := initial;
    }

    /** A fresh read of one worksheet (no cache): None when there is no such sheet. */
    function Fetch(name: string): (r: Option<Table>)
      reads this
      ensures r.Some? <==> name in sheets
      ensures r.Some? ==> r.value == sheets[name]
    {
      Lookup(sheets, name)
    }

    /** `conn.update(worksheet=name, data=t)`: the whole worksheet is replaced by `t`
        when the backend accepts the write; a rejected write changes nothing. No other
        worksheet is touched either way. */
    method Update(name: string, t: Table, accepted: bool) returns (ok: bool)
      modifies this
      ensures ok == accepted
      ensures sheets == if accepted then old(sheets)[name := t] else old(sheets)
    {
      ok := accepted;
      if accepted {
        sheets := sheets[name := t];
      }
    }
  }
}
