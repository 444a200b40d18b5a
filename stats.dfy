/** The `stats` subcommand: bot-wide totals over the guilds the bot is in
    (bot-owner.js:167-188). */
module Stats {

  /** A guild of `client.guilds.cache`. */
  datatype Guild = Guild(id: string, name: string, memberCount: nat)

  /** What `client.database.getTicketStats(guildId)` reports for one guild. */
  datatype TicketStats = TicketStats(totalTickets: int, openTickets: int)

  /** The six fields of the statistics embed. */
  datatype BotStats = BotStats(servers: nat, users: nat, tickets: nat, openTickets: int, closedTickets: int, feedback: nat)

  function OpenSum(guilds: seq<Guild>, statsOf: string -> TicketStats): int
  {
    if guilds == [] then 0
    else OpenSum(guilds[..|guilds| - 1], statsOf) + statsOf(guilds[|guilds| - 1].id).openTickets
  }

  function ClosedSum(guilds: seq<Guild>, statsOf: string -> TicketStats): int
  {
    if guilds == [] then 0
    else
      var stats := statsOf(guilds[|guilds| - 1].id);
      ClosedSum(guilds[..|guilds| - 1], statsOf) + (stats.totalTickets - stats.openTickets)
  }

  /** The per-guild ticket totals added up. */
  function TotalSum(guilds: seq<Guild>, statsOf: string -> TicketStats): int
  {
    if guilds == [] then 0
    else TotalSum(guilds[..|guilds| - 1], statsOf) + statsOf(guilds[|guilds| - 1].id).totalTickets
  }

  /** `guilds.reduce((acc, guild) => acc + guild.memberCount, 0)` */
  function MemberSum(guilds: seq<Guild>): (users: nat)
    ensures forall i :: 0 <= i < |guilds| ==> guilds[i].memberCount <= users
    ensures users == 0 <==> forall i :: 0 <= i < |guilds| ==> guilds[i].memberCount == 0
  {
    if guilds == [] then 0 else MemberSum(guilds[..|guilds| - 1]) + guilds[|guilds| - 1].memberCount
  }

  /** bot-owner.js:171-177: one pass over the guilds adding up open and
      closed tickets. */
  method Tally(guilds: seq<Guild>, statsOf: string -> TicketStats) returns (open: int, closed: int)
    ensures open == OpenSum(guilds, statsOf)
    ensures closed == ClosedSum(guilds, statsOf)
  {
    open, closed := 0, 0;
    for i := 0 to |guilds|
      invariant open == OpenSum(guilds[..i], statsOf)
      invariant closed == ClosedSum(guilds[..i], statsOf)
    {
      var stats := statsOf(guilds[i].id);
      open := open + stats.openTickets;
      closed := closed + (stats.totalTickets - stats.openTickets);
      assert guilds[..i + 1][..i] == guilds[..i];
    }
    assert guilds[..|guilds|] == guilds;
  }

  /** bot-owner.js:167-188. `ticketKeys` are the keys of the tickets
      document and `feedbackCount` the length of the feedback document. */
  method Compute(guilds: seq<Guild>, statsOf: string -> TicketStats, ticketKeys: set<string>, feedbackCount: nat)
    returns (s: BotStats)
    ensures s.servers == |guilds| && s.users == MemberSum(guilds)
    ensures s.tickets == |ticketKeys| && s.feedback == feedbackCount
    ensures s.openTickets == OpenSum(guilds, statsOf) && s.closedTickets == ClosedSum(guilds, statsOf)
    ensures s.openTickets + s.closedTickets == TotalSum(guilds, statsOf)
  {
    var open, closed := Tally(guilds, statsOf);
    OpenPlusClosed(guilds, statsOf);
    s := BotStats(|guilds|, MemberSum(guilds), |ticketKeys|, open, closed, feedbackCount);
  }

  /** Open and closed tickets together are the per-guild ticket totals. */
  lemma {:induction false} OpenPlusClosed(guilds: seq<Guild>, statsOf: string -> TicketStats)
    ensures OpenSum(guilds, statsOf) + ClosedSum(guilds, statsOf) == TotalSum(guilds, statsOf)
  {
    if guilds != [] {
      OpenPlusClosed(guilds[..|guilds| - 1], statsOf);
    }
  }

  /** When every guild reports between zero and its total open tickets, the
      closed count lies between zero and the ticket total. */
  lemma {:induction false} ClosedBounded(guilds: seq<Guild>, statsOf: string -> TicketStats)
    requires forall i :: 0 <= i < |guilds| ==> 0 <= statsOf(guilds[i].id).openTickets <= statsOf(guilds[i].id).totalTickets
    ensures 0 <= ClosedSum(guilds, statsOf) <= TotalSum(guilds, statsOf)
    ensures 0 <= OpenSum(guilds, statsOf)
  {
    if guilds != [] {
      ClosedBounded(guilds[..|guilds| - 1], statsOf);
    }
  }

  /** Two guilds reporting (5 total, 2 open) and (3 total, 1 open): their
      per-guild totals sum to 8, with 3 open and 5 closed. The embed's ticket
      count is the key count of the tickets document, not this sum. */
  lemma TwoGuildTotals(a: Guild, b: Guild, statsOf: string -> TicketStats)
    requires statsOf(a.id) == TicketStats(5, 2) && statsOf(b.id) == TicketStats(3, 1)
    ensures TotalSum([a, b], statsOf) == 8
    ensures OpenSum([a, b], statsOf) == 3 && ClosedSum([a, b], statsOf) == 5
  {
    assert [a, b][..1] == [a];
    assert [a][..0] == [];
    assert OpenSum([a], statsOf) == 2;
    assert ClosedSum([a], statsOf) == 3;
    assert TotalSum([a], statsOf) == 5;
  }

}
