/** Rows returned by the database queries the notification code issues. */
module Records {
  import opened Optional
  import opened Values
  import Text

  /** One element of a per-train access list in `train_details`. */
  datatype AccessEntry =
    | Window(origin: Option<Value>, end: Option<Value>)  // a JSON object; None = key absent
    | NonObject                                          // any other JSON value

  /** The value stored for one train number, as far as iterating over it goes. */
  datatype TrainAccess =
    | Windows(entries: seq<AccessEntry>)                 // a JSON array
    | Strings(count: nat)                                // an object or a string: iteration yields `count` strings
    | NotIterable                                        // a number, a boolean or null

  /** The decoded `train_details` column. */
  datatype Payload =
    | Decoded(trains: map<string, TrainAccess>)          // a JSON object: train number to its access value
    | OtherJson                                          // an array, string, number, boolean or null
    | Undecodable                                        // json.loads raised

  /**
   * What one `execute_query` call gives: its rows, None, or an exception
   * (a failed connection or statement).
   */
  datatype Query<T> = Rows(rows: seq<T>) | NullResult | QueryRaised

  /**
   * A `user_onboarding_user` row: `email` and `depo` are nullable text
   * columns; `trainDetails` is present only in rows joined with
   * `trains_trainaccess`.
   */
  datatype UserRow = UserRow(id: int, email: Option<string>, depo: Option<string>, trainDetails: Option<Payload>)

  /** A `trains_traindetails` row. */
  datatype TrainRecord = TrainRecord(trainNo: Value, trainName: Value, depot: Value)

  /** The address test of debug_script.py:235 and utils/email_utils.py:148:
      non-empty, not a "noemail" placeholder, and containing '@'. */
  predicate ValidAddress(e: Option<string>) {
    e.Some? && e.value != "" && !Text.StartsWith(e.value, "noemail") && '@' in e.value
  }

  /** What a per-user test in a filtering loop decides; `Fail` is an
      exception that ends the loop, leaving the users collected so far. */
  datatype Step = Keep | Skip | Fail

  function Collect(users: seq<UserRow>, step: UserRow -> Step): seq<UserRow> {
    if users == [] then []
    else
      match step(users[0])
      case Fail => []
      case Keep => [users[0]] + Collect(users[1..], step)
      case Skip => Collect(users[1..], step)
  }

  /** When no test fails, the loop keeps exactly the users the test keeps,
      each at most as often as it occurs. */
  lemma {:induction false} CollectMembers(users: seq<UserRow>, step: UserRow -> Step)
    requires forall u :: u in users ==> step(u) != Fail
    ensures forall u :: u in Collect(users, step) <==> u in users && step(u) == Keep
    ensures multiset(Collect(users, step)) <= multiset(users)
  {
    if users != [] {
      assert users == [users[0]] + users[1..];
      CollectMembers(users[1..], step);
    }
  }

  /** Even when a test fails part-way, every user returned is an input user
      the test keeps. */
  lemma {:induction false} CollectKeepsOnlyKept(users: seq<UserRow>, step: UserRow -> Step)
    ensures forall u :: u in Collect(users, step) ==> u in users && step(u) == Keep
  {
    if users != [] {
      CollectKeepsOnlyKept(users[1..], step);
    }
  }
}
