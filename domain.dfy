/** The entities of the member listing: teams, members and the search condition. */
module Domain {
  import opened Wrappers

  /** A team; members refer to it, it does not own them. */
  datatype Team = Team(id: nat, name: string)

  /** A member row. `username` is nullable; `team` is the optional many-to-one reference. */
  datatype Member = Member(id: nat, username: Option<string>, age: int, team: Option<Team>)

  /** The four independent, all-optional fields of a search. */
  datatype MemberSearchCond = MemberSearchCond(
    username: Option<string>,
    teamName: Option<string>,
    ageGoe: Option<int>,
    ageLoe: Option<int>)

  /** A search condition with every field left null. */
  function EmptyCond(): MemberSearchCond
  {
    MemberSearchCond(None, None, None, None)
  }

  // The rows every test persists before it runs: two teams and four members.
  function TeamA(): Team { Team(1, "teamA") }
  function TeamB(): Team { Team(2, "teamB") }
  function Member1(): Member { Member(1, Some("member1"), 10, Some(TeamA())) }
  function Member2(): Member { Member(2, Some("member2"), 20, Some(TeamA())) }
  function Member3(): Member { Member(3, Some("member3"), 30, Some(TeamB())) }
  function Member4(): Member { Member(4, Some("member4"), 40, Some(TeamB())) }

  /** The member table in insertion order. */
  function Fixture(): seq<Member>
  {
    [Member1(), Member2(), Member3(), Member4()]
  }

  /** The first three fixture members, in insertion order. */
  lemma FixturePrefix()
    ensures Fixture()[..3] == [Member1(), Member2(), Member3()]
  {
  }
}
