/** The `/bot-owner` command handler (bot-owner.js:54-229): the access gate,
    then one of five subcommands over the registry, the guild config
    collection and the read-only ticket and feedback documents. */
module BotOwner {
  import opened Optional
  import CategoryId
  import opened Registry
  import opened Tenants
  import Access
  import opened Stats
  import Ranking

  /** The documents behind `client.database`: the guild config collection
      (read and replaced whole), the keys of the tickets document, the
      length of the feedback document and `getTicketStats`. `configWrites`
      counts the `writeJSON` calls on the config collection. */
  class Database {
    var configs: map<string, TenantConfig>
    const ticketKeys: set<string>
    const feedbackCount: nat
    const statsOf: string -> TicketStats
    ghost var configWrites: nat

    constructor (configs0: map<string, TenantConfig>, ticketKeys: set<string>, feedbackCount: nat, statsOf: string -> TicketStats)
      ensures configs == configs0 && configWrites == 0
      ensures this.ticketKeys == ticketKeys && this.feedbackCount == feedbackCount && this.statsOf == statsOf
    {
      configs := configs0;
      this.ticketKeys := ticketKeys;
      this.feedbackCount := feedbackCount;
      this.statsOf := statsOf;
      configWrites := 0;
    }
  }

  /** Who runs the command and where: the application owner, the caller's
      user id, the owner of the guild it runs in (absent outside a guild)
      and the guilds of `client.guilds.cache` in cache order. */
  datatype Context = Context(owner: Option<Access.AppOwner>, user: string, guildOwner: Option<string>, guilds: seq<Guild>)

  datatype Command =
    | AddGlobalCategory(rawId: string, name: string, emoji: string, description: string)
    | RemoveGlobalCategory(id: string)
    | ListGlobalCategories
    | ShowStats
    | ListServers

  datatype Reply =
    | NotPermitted
    | Crashed                                  // the TypeError of bot-owner.js:58 outside a guild
    | Rejected(error: Registry.Error)
    | Added(id: string, category: Category)
    | Removed(category: Category, affectedServers: nat)
    | CategoryList(listing: Listing)
    | StatsReport(stats: BotStats)
    | ServerReport(rows: seq<Ranking.ServerRow>, totalServers: nat)

  method Execute(registry: CategoryRegistry, db: Database, ctx: Context, cmd: Command) returns (reply: Reply)
    requires registry.Valid()
    modifies registry, db
    ensures registry.Valid()
    // The gate: a caller who is not an administrator, or a call outside a
    // guild, changes nothing.
    ensures var gate := Access.Check(ctx.owner, ctx.user, ctx.guildOwner);
            && (gate == Access.Denied ==> reply == NotPermitted)
            && (gate == Access.NoGuild ==> reply == Crashed)
            && (gate != Access.Granted ==> unchanged(registry) && unchanged(db))
    ensures Access.Check(ctx.owner, ctx.user, ctx.guildOwner) == Access.Granted ==>
      match cmd
      case AddGlobalCategory(rawId, name, emoji, description) =>
        var id := CategoryId.Normalize(rawId);
        && unchanged(db)
        && (id in old(registry.entries) ==> reply == Rejected(DuplicateCategory) && unchanged(registry))
        && (id !in old(registry.entries) ==>
              && reply == Added(id, Category(name, emoji, description))
              && registry.entries == old(registry.entries)[id := Category(name, emoji, description)]
              && registry.order == old(registry.order) + [id]
              && registry.writes == old(registry.writes) + 1)
      case RemoveGlobalCategory(id) =>
        && (id !in old(registry.entries) ==> reply == Rejected(CategoryNotFound) && unchanged(registry) && unchanged(db))
        && (id in old(registry.entries) ==>
              var affected := |Affected(old(db.configs), id)|;
              && reply == Removed(old(registry.entries)[id], affected)
              && registry.entries == old(registry.entries) - {id}
              && registry.order == Lists.Without(old(registry.order), id)
              && registry.writes == old(registry.writes) + 1
              && db.configs == Purged(old(db.configs), id)
              && (forall g :: g in db.configs ==> !References(db.configs[g], id))
              && db.configWrites == old(db.configWrites) + (if affected > 0 then 1 else 0))
      case ListGlobalCategories =>
        && unchanged(registry) && unchanged(db)
        && reply == CategoryList(ListingOf(registry.entries, registry.order))
      case ShowStats =>
        && unchanged(registry) && unchanged(db)
        && reply == StatsReport(BotStats(|ctx.guilds|, MemberSum(ctx.guilds), |db.ticketKeys|,
                                         OpenSum(ctx.guilds, db.statsOf), ClosedSum(ctx.guilds, db.statsOf),
                                         db.feedbackCount))
      case ListServers =>
        var top := Ranking.Rank(ctx.guilds);
        && unchanged(registry) && unchanged(db)
        && reply.ServerReport? && reply.totalServers == |ctx.guilds| && |reply.rows| == |top|
        && (forall i :: 0 <= i < |top| ==>
              reply.rows[i] == Ranking.ServerRow(i + 1, top[i].name, top[i].memberCount, db.statsOf(top[i].id).totalTickets))
  {
    var gate := Access.Check(ctx.owner, ctx.user, ctx.guildOwner);
    if gate == Access.NoGuild {
      return Crashed;
    }
    if gate == Access.Denied {
      return NotPermitted;
    }
    match cmd
    case AddGlobalCategory(rawId, name, emoji, description) =>
      var id := CategoryId.Normalize(rawId);
      var r := registry.Add(id, Category(name, emoji, description));
      reply := if r.Ok? then Added(id, r.value) else Rejected(r.error);
    case RemoveGlobalCategory(id) =>
      var r := registry.Remove(id);
      if r.Err? {
        return Rejected(r.error);
      }
      var allConfigs := db.configs;
      var updated, affectedServers := Cascade(allConfigs, id);
      if affectedServers > 0 {
        db.configs := updated;
        db.configWrites := db.configWrites + 1;
      } else {
        AffectedIffChanged(allConfigs, id);
      }
      PurgedClearsId(allConfigs, id);
      reply := Removed(r.value, affectedServers);
    case ListGlobalCategories =>
      reply := CategoryList(ListingOf(registry.entries, registry.order));
    case ShowStats =>
      var stats := Stats.Compute(ctx.guilds, db.statsOf, db.ticketKeys, db.feedbackCount);
      reply := StatsReport(stats);
    case ListServers =>
      var top := Ranking.Rank(ctx.guilds);
      var rows := Ranking.Annotate(top, db.statsOf);
      reply := ServerReport(rows, |ctx.guilds|);
  }

}
