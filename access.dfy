/** The gate every subcommand passes first (bot-owner.js:55-65). */
module Access {
  import opened Optional

  /** `interaction.client.application.owner`: a user (no `ownerId`) or a
      team, whose `ownerId` is the user id of the team's owner. */
  datatype AppOwner = AppOwner(id: string, ownerId: Option<string>)

  datatype Gate =
    | Granted
    | Denied      // the fixed "only available to the bot owner or server owner" reply
    | NoGuild     // `interaction.guild` is null: reading `ownerId` throws before any reply

  /** A JavaScript string is truthy unless it is empty. */
  predicate Truthy(s: Option<string>)
  {
    s.Some? && s.value != ""
  }

  /** bot-owner.js:55-57 */
  predicate IsBotOwner(owner: Option<AppOwner>, user: string)
    ensures owner.None? ==> !IsBotOwner(owner, user)
    ensures owner.Some? && !Truthy(owner.value.ownerId) ==> (IsBotOwner(owner, user) <==> user == owner.value.id)
  {
    (owner.Some? && owner.value.id == user)
    || (owner.Some? && Truthy(owner.value.ownerId) && user == owner.value.ownerId.value)
  }

  /** The user ids that may run the command: the application owner, the
      team owner (when the owner is a team with a non-empty owner id) and
      the guild owner. */
  ghost function Administrators(owner: Option<AppOwner>, guildOwner: string): set<string>
  {
    {guildOwner}
    + (if owner.Some? then {owner.value.id} else {})
    + (if owner.Some? && Truthy(owner.value.ownerId) then {owner.value.ownerId.value} else {})
  }

  /** bot-owner.js:55-65; `guildOwner` is `interaction.guild?.ownerId`.
      Inside a guild the gate lets a caller through if and only if the
      caller is one of the three administrators; outside a guild it fails
      for every caller, the bot owner included. */
  function Check(owner: Option<AppOwner>, user: string, guildOwner: Option<string>): (g: Gate)
    ensures g == NoGuild <==> guildOwner.None?
    ensures guildOwner.Some? ==> (g == Granted <==> user in Administrators(owner, guildOwner.value))
    ensures guildOwner.Some? ==> (g == Denied <==> user !in Administrators(owner, guildOwner.value))
  {
    var isBotOwner := IsBotOwner(owner, user);
    if guildOwner.None? then NoGuild
    else
      var isServerOwner := user == guildOwner.value;
      if !isBotOwner && !isServerOwner then Denied else Granted
  }

}
