/** The per-guild config collection and the cascade that strips a removed
    global category from every guild's `enabledCategories`
    (bot-owner.js:121-133). */
module Tenants {
  import opened Optional
  import opened Lists

  /** One guild's record. `enabledCategories` may be missing; `settings`
      stands for the fields the cascade never touches. */
  datatype TenantConfig = TenantConfig(enabledCategories: Option<seq<string>>, settings: map<string, string>)

  /** `serverConfig.enabledCategories && serverConfig.enabledCategories.includes(id)` */
  predicate References(t: TenantConfig, id: string)
    ensures References(t, id) <==>
              t.enabledCategories.Some? && Without(t.enabledCategories.value, id) != t.enabledCategories.value
  {
    if t.enabledCategories.Some? then
      WithoutUnchanged(t.enabledCategories.value, id);
      id in t.enabledCategories.value
    else false
  }

  /** One guild after the cascade (bot-owner.js:125-126). */
  function Purge(t: TenantConfig, id: string): (u: TenantConfig)
    ensures !References(u, id)
    ensures u.settings == t.settings
    ensures u.enabledCategories.Some? <==> t.enabledCategories.Some?
  {
    if References(t, id) then t.(enabledCategories := Some(Without(t.enabledCategories.value, id))) else t
  }

  /** The collection after the cascade. */
  function Purged(all: map<string, TenantConfig>, id: string): map<string, TenantConfig>
  {
    map g | g in all :: Purge(all[g], id)
  }

  /** The guilds whose list contained the id, each once however often the
      id occurred in its list. */
  function Affected(all: map<string, TenantConfig>, id: string): set<string>
  {
    set g | g in all && References(all[g], id)
  }

  /** bot-owner.js:122-129: walk every guild, strip the id from the lists
      that contain it and count those guilds. */
  method Cascade(all: map<string, TenantConfig>, id: string) returns (updated: map<string, TenantConfig>, affected: nat)
    ensures updated == Purged(all, id)
    ensures affected == |Affected(all, id)|
  {
    updated, affected := all, 0;
    var todo := all.Keys;
    PartlyPurgedNone(all, id);
    while todo != {}
      invariant todo <= all.Keys
      invariant updated == PartlyPurged(all, id, todo)
      invariant affected == |Affected(all, id) - todo|
      decreases todo
    {
      var g :| g in todo;
      var serverConfig := updated[g];
      DoneGrows(Affected(all, id), todo, g);
      PartlyPurgedStep(all, id, todo, g);
      if References(serverConfig, id) {
        updated := updated[g := Purge(serverConfig, id)];
        affected := affected + 1;
      }
      todo := todo - {g};
    }
    PartlyPurgedAll(all, id);
    assert Affected(all, id) - todo == Affected(all, id);
  }

  /** The collection part-way through the walk: the guilds still in `todo`
      are as read, the others purged. */
  ghost function PartlyPurged(all: map<string, TenantConfig>, id: string, todo: set<string>): map<string, TenantConfig>
  {
    map g | g in all :: if g in todo then all[g] else Purge(all[g], id)
  }

  lemma PartlyPurgedNone(all: map<string, TenantConfig>, id: string)
    ensures PartlyPurged(all, id, all.Keys) == all
  {
  }

  lemma PartlyPurgedAll(all: map<string, TenantConfig>, id: string)
    ensures PartlyPurged(all, id, {}) == Purged(all, id)
  {
  }

  /** Processing guild `g` purges it, and touches it only if it refers to the id. */
  lemma PartlyPurgedStep(all: map<string, TenantConfig>, id: string, todo: set<string>, g: string)
    requires g in todo && todo <= all.Keys
    ensures g in PartlyPurged(all, id, todo) && PartlyPurged(all, id, todo)[g] == all[g]
    ensures g in Affected(all, id) <==> References(all[g], id)
    ensures References(all[g], id) ==>
              PartlyPurged(all, id, todo)[g := Purge(all[g], id)] == PartlyPurged(all, id, todo - {g})
    ensures !References(all[g], id) ==> PartlyPurged(all, id, todo) == PartlyPurged(all, id, todo - {g})
  {
    var before, after := PartlyPurged(all, id, todo), PartlyPurged(all, id, todo - {g});
    if References(all[g], id) {
      assert before[g := Purge(all[g], id)] == after;
    } else {
      assert Purge(all[g], id) == all[g];
      assert before == after;
    }
  }

  /** Moving one guild from the pending set to the done set adds it to the
      counted guilds exactly when it is affected. */
  lemma DoneGrows(affected: set<string>, todo: set<string>, g: string)
    requires g in todo
    ensures |affected - (todo - {g})| == |affected - todo| + (if g in affected then 1 else 0)
  {
    if g in affected {
      assert affected - (todo - {g}) == (affected - todo) + {g};
    } else {
      assert affected - (todo - {g}) == affected - todo;
    }
  }

  /** After the cascade no guild refers to the id, no guild is added or
      lost, and no guild's other settings change. */
  lemma PurgedClearsId(all: map<string, TenantConfig>, id: string)
    ensures Purged(all, id).Keys == all.Keys
    ensures forall g :: g in all ==> !References(Purged(all, id)[g], id)
    ensures forall g :: g in all ==> Purged(all, id)[g].settings == all[g].settings
  {
  }

  /** A guild without a list, or whose list lacks the id, is left as it was;
      a guild whose list has it keeps every other id, as often as before
      and in the same relative order. */
  lemma PurgedKeepsOtherIds(all: map<string, TenantConfig>, id: string, g: string)
    requires g in all
    ensures !References(all[g], id) ==> Purged(all, id)[g] == all[g]
    ensures all[g].enabledCategories.Some? ==>
              var before, after := all[g].enabledCategories.value, Purged(all, id)[g].enabledCategories.value;
              && multiset(after) == multiset(before)[id := 0]
              && forall a, b :: before == a + b ==> after == Without(a, id) + Without(b, id)
  {
    var t := all[g];
    if t.enabledCategories.Some? {
      var before := t.enabledCategories.value;
      WithoutCounts(before, id);
      WithoutUnchanged(before, id);
      forall a, b | before == a + b ensures Purged(all, id)[g].enabledCategories.value == Without(a, id) + Without(b, id) {
        WithoutConcat(a, b, id);
      }
    }
  }

  /** The reported count is at most the number of guilds, and it is zero
      exactly when the cascade changes nothing: the collection is written
      back if and only if some guild changed. */
  lemma AffectedIffChanged(all: map<string, TenantConfig>, id: string)
    ensures |Affected(all, id)| <= |all|
    ensures |Affected(all, id)| == 0 <==> Purged(all, id) == all
  {
    assert Affected(all, id) <= all.Keys;
    Sizes(Affected(all, id), all.Keys);
    if |Affected(all, id)| == 0 {
      assert Affected(all, id) == {};
      forall g | g in all ensures Purged(all, id)[g] == all[g] {
        assert g !in Affected(all, id);
      }
    } else {
      var g :| g in Affected(all, id);
      assert References(all[g], id) && !References(Purged(all, id)[g], id);
    }
  }

  lemma {:induction false} Sizes<T>(a: set<T>, b: set<T>)
    requires a <= b
    ensures |a| <= |b|
  {
    if a != {} {
      var x :| x in a;
      Sizes(a - {x}, b - {x});
    }
  }

}
