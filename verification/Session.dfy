/** What the services work on: a database session and the object store. */
module Session {
  import opened Schema

  // The working tables of one session, and what is committed. A statement changes the
  // working tables only; Commit publishes them, Rollback drops them.
  class Database {
    var aliases: map<string, Alias>
    var emails: seq<Email>
    var rows: seq<Extraction>
    var matches: seq<Match>
    var outbox: seq<Event>
    var committed: Tables

    function View(): Tables
      reads this
    {
      Tables(aliases, emails, rows, matches, outbox)
    }

    constructor (t: Tables)
      ensures View() == committed == t
    {
      aliases, emails, rows, matches, outbox := t.aliases, t.emails, t.rows, t.matches, t.outbox;
      committed := t;
    }

    method Commit()
      modifies this`committed
      ensures committed == View()
    {
      committed := View();
    }

    method Rollback()
      modifies this
      ensures View() == committed == old(committed)
    {
      var t := committed;
      aliases, emails, rows, matches, outbox := t.aliases, t.emails, t.rows, t.matches, t.outbox;
    }
  }

  class Bucket {
    var objects: set<string>

    constructor (o: set<string>)
      ensures objects == o
    {
      objects := o;
    }

    method Put(key: string)
      modifies this
      ensures objects == old(objects) + {key}
    {
      objects := objects + {key};
    }

    // removing a key that is not there is no error
    method Delete(key: string)
      modifies this
      ensures objects == old(objects) - {key}
    {
      objects := objects - {key};
    }
  }
}
