/** One interactive session of the challenge page: the login gate, the daily
    submission that upserts the user's row for today, and the two views
    derived from the table (leaderboard and latest entry). */
module App {
  import opened Scoring
  import opened Text
  import opened Entries
  import opened Leaderboard

  const INVITE_CODE: string := "NOV2025"

  /** The ranges the entry form accepts. */
  const MAX_STEPS: int := 50000
  const MAX_CALORIES: int := 2000

  class Session {
    var loggedIn: bool
    var name: string
    var data: seq<Entry>

    /** Before login the session is empty; afterwards every row belongs to the
        session's user, carries a score between 0 and 100, and no (name, date)
        has two rows. */
    ghost predicate Valid()
      reads this
    {
      && UniqueKeys(data)
      && (forall x | x in data :: x.name == name && 0.0 <= x.score <= 100.0)
      && (!loggedIn ==> name == "" && data == [])
    }

    /** The session state as first initialised. */
    constructor ()
      ensures Valid()
      ensures !loggedIn && name == "" && data == []
    {
      loggedIn := false;
      name := "";
      data := [];
    }

    /** The login button: succeeds exactly when the code is the invite code and
        the name is not blank; then the session is logged in under the stripped,
        title-cased name. A failed attempt changes nothing. */
    method Login(code: string, rawName: string) returns (ok: bool)
      requires Valid() && !loggedIn
      modifies this
      ensures Valid()
      ensures ok <==> code == INVITE_CODE && !AllSpace(rawName)
      ensures loggedIn == ok
      ensures name == if ok then Title(Strip(rawName)) else old(name)
      ensures ok ==> name != "" && Strip(name) == name
      ensures data == old(data)
    {
      StripEmptyIffAllSpace(rawName);
      var stripped := Strip(rawName);
      ok := code == INVITE_CODE && stripped != "";
      if ok {
        TitleOfStripped(rawName);
        loggedIn := true;
        name := Title(stripped);
      }
    }

    /** The submit button: today's row for the session's user is replaced by
        one with the given steps and calories and their score. */
    method Submit(steps: int, calories: int, today: int)
      requires Valid() && loggedIn
      requires 0 <= steps <= MAX_STEPS && 0 <= calories <= MAX_CALORIES
      modifies this
      ensures Valid()
      ensures loggedIn && name == old(name)
      ensures data == Upsert(old(data), Entry(name, today, steps, calories, Score(steps, calories)))
    {
      var entry := Entry(name, today, steps, calories, Score(steps, calories));
      UpsertKeepsUniqueKeys(data, entry);
      data := Without(data, name, today);
      data := data + [entry];
    }

    /** The leaderboard, shown only when the table has rows. Within one
        session every row is the session user's, so the board has a single
        row: that user with their mean score. */
    function ShownBoard(): (r: Option<seq<Row>>)
      reads this
      requires Valid()
      ensures r.None? <==> data == []
      ensures r.Some? ==> r.value == Board(data)
      ensures r.Some? ==> |r.value| == 1 && r.value[0].name == name
      ensures r.Some? ==> r.value[0].mean == Mean(data, name) && 0.0 <= r.value[0].mean <= 100.0
    {
      if |data| > 0 then
        var b := Board(data);
        BoardSpec(data);
        assert forall i | 0 <= i < |b| :: b[i].name == name by {
          forall i | 0 <= i < |b| ensures b[i].name == name {
            CountNameAtLeastOne(b, i);
          }
        }
        CountNameAll(b, name);
        MeanBounds(data, name);
        Some(b)
      else
        None
    }

    /** The row the progress section shows: shown only when the table has
        rows, and then it is the user's row with the greatest date, which
        always exists within one session. */
    function Progress(): (r: Option<Entry>)
      reads this
      requires Valid()
      ensures r.Some? <==> data != []
      ensures r.Some? ==> r == Latest(data, name)
      ensures r.Some? ==> r.value in data && forall x | x in data :: x.date <= r.value.date
    {
      if |data| > 0 then Latest(data, name) else None
    }
  }

  /** Logging in with "  alice  " stores the name "Alice". */
  lemma LoginNameExample()
    ensures !AllSpace("  alice  ")
    ensures Title(Strip("  alice  ")) == "Alice"
  {
    assert !IsSpace("  alice  "[2]);
    TrimStartExample();
    TrimEndExample();
    TitleExample();
  }

  /** A failed login changes nothing; a successful one stores the
      normalised name. */
  method LoginExample()
  {
    var s := new Session();
    var ok := s.Login("wrong", "alice");
    assert !ok && !s.loggedIn && s.name == "";
    LoginNameExample();
    ok := s.Login(INVITE_CODE, "  alice  ");
    assert ok && s.loggedIn && s.name == "Alice";
  }

  /** A second submission on the same day replaces the first. */
  method ResubmitExample(s: Session, today: int, first: int, second: int, calories: int)
    requires s.Valid() && s.loggedIn
    requires 0 <= first <= MAX_STEPS && 0 <= second <= MAX_STEPS
    requires 0 <= calories <= MAX_CALORIES
    modifies s
  {
    s.Submit(first, calories, today);
    var before := s.data;
    s.Submit(second, calories, today);
    var last := Entry(s.name, today, second, calories, Score(second, calories));
    assert s.data == Upsert(before, last);
    assert Select(s.data, s.name, today) == [last];
  }
}
