/** The `servers` subcommand: the guilds ordered by member count, largest
    first, cut to the first twenty (bot-owner.js:200-221). */
module Ranking {
  import opened Stats
  import opened Lists

  /** `.slice(0, 20)` */
  const Shown: nat := 20

  function Min(a: nat, b: nat): nat
  {
    if a <= b then a else b
  }

  /** Member counts never increase along the sequence. */
  ghost predicate Descending(s: seq<Guild>)
  {
    forall i, j :: 0 <= i < j < |s| ==> s[i].memberCount >= s[j].memberCount
  }

  /** `[g]` when `g` has exactly `k` members, otherwise nothing. */
  function Own(g: Guild, k: nat): seq<Guild>
  {
    if g.memberCount == k then [g] else []
  }

  /** The guilds with exactly `k` members, in the order they occur. */
  function WithMembers(s: seq<Guild>, k: nat): seq<Guild>
  {
    if s == [] then [] else Own(s[0], k) + WithMembers(s[1..], k)
  }

  /** Place `g` after every guild that has at least as many members: later
      guilds never overtake earlier ones with the same count. */
  function Insert(g: Guild, sorted: seq<Guild>): (r: seq<Guild>)
    ensures |r| == |sorted| + 1
    ensures multiset(r) == multiset(sorted) + multiset{g}
  {
    if sorted == [] then [g]
    else if sorted[0].memberCount >= g.memberCount then
      assert sorted == [sorted[0]] + sorted[1..];
      [sorted[0]] + Insert(g, sorted[1..])
    else [g] + sorted
  }

  /** `Array.prototype.sort((a, b) => b.memberCount - a.memberCount)`, a
      stable sort (section 23.1.3.30 of ECMA-262, 2023 edition), written as
      an insertion sort. */
  function SortByMembers(s: seq<Guild>): (r: seq<Guild>)
    ensures multiset(r) == multiset(s)
    ensures |r| == |s|
    ensures Descending(r)
  {
    if s == [] then []
    else
      var sorted := SortByMembers(s[..|s| - 1]);
      assert s == s[..|s| - 1] + [s[|s| - 1]];
      InsertDescending(s[|s| - 1], sorted);
      Insert(s[|s| - 1], sorted)
  }

  lemma {:induction false} InsertDescending(g: Guild, sorted: seq<Guild>)
    requires Descending(sorted)
    ensures Descending(Insert(g, sorted))
  {
    if sorted == [] {
    } else if sorted[0].memberCount >= g.memberCount {
      var rest := Insert(g, sorted[1..]);
      DescendingTail(sorted);
      InsertDescending(g, sorted[1..]);
      InsertHead(g, sorted[1..]);
      DescendingCons(sorted[0], rest);
    } else {
      DescendingCons(g, sorted);
    }
  }

  /** The first guild after an insertion is either the old first guild or
      the inserted one. */
  lemma InsertHead(g: Guild, sorted: seq<Guild>)
    ensures Insert(g, sorted)[0] == (if sorted != [] && sorted[0].memberCount >= g.memberCount then sorted[0] else g)
  {
  }

  lemma DescendingCons(x: Guild, t: seq<Guild>)
    requires Descending(t)
    requires t != [] ==> x.memberCount >= t[0].memberCount
    ensures Descending([x] + t)
  {
    var s := [x] + t;
    forall i, j | 0 <= i < j < |s| ensures s[i].memberCount >= s[j].memberCount {
      if i == 0 {
        assert s[j] == t[j - 1];
      } else {
        assert s[i] == t[i - 1] && s[j] == t[j - 1];
      }
    }
  }

  lemma {:induction false} WithMembersConcat(a: seq<Guild>, b: seq<Guild>, k: nat)
    ensures WithMembers(a + b, k) == WithMembers(a, k) + WithMembers(b, k)
  {
    if a == [] {
      assert a + b == b;
    } else {
      assert (a + b)[1..] == a[1..] + b;
      WithMembersConcat(a[1..], b, k);
    }
  }

  lemma {:induction false} WithMembersNone(s: seq<Guild>, k: nat)
    requires forall i :: 0 <= i < |s| ==> s[i].memberCount != k
    ensures WithMembers(s, k) == []
  {
    if s != [] {
      WithMembersNone(s[1..], k);
    }
  }

  lemma DescendingTail(s: seq<Guild>)
    requires s != [] && Descending(s)
    ensures Descending(s[1..])
  {
    forall i, j | 0 <= i < j < |s[1..]| ensures s[1..][i].memberCount >= s[1..][j].memberCount {
      assert s[1..][i] == s[i + 1] && s[1..][j] == s[j + 1];
    }
  }

  lemma WithMembersCons(x: Guild, s: seq<Guild>, k: nat)
    ensures WithMembers([x] + s, k) == Own(x, k) + WithMembers(s, k)
  {
    assert ([x] + s)[1..] == s;
  }

  /** Inserting `g` appends it to the guilds of its own size and leaves the
      other sizes as they were. */
  lemma {:induction false} InsertStable(g: Guild, sorted: seq<Guild>, k: nat)
    requires Descending(sorted)
    ensures WithMembers(Insert(g, sorted), k) == WithMembers(sorted, k) + Own(g, k)
  {
    if sorted == [] {
      WithMembersCons(g, [], k);
      assert [g] + [] == [g];
    } else if sorted[0].memberCount >= g.memberCount {
      var rest := Insert(g, sorted[1..]);
      DescendingTail(sorted);
      InsertStable(g, sorted[1..], k);
      InsertBehindShape(g, sorted);
      ConsStep(Insert(g, sorted), sorted, k, Own(g, k));
    } else {
      InsertStableAhead(g, sorted, k);
    }
  }

  /** Two sequences with the same first guild: a relation between their
      tails' size classes carries over to the whole sequences. */
  lemma ConsStep(r: seq<Guild>, s: seq<Guild>, k: nat, c: seq<Guild>)
    requires r != [] && s != [] && r[0] == s[0]
    requires WithMembers(r[1..], k) == WithMembers(s[1..], k) + c
    ensures WithMembers(r, k) == WithMembers(s, k) + c
  {
    WithMembersHead(r, k);
    WithMembersHead(s, k);
    ConcatAssoc(Own(s[0], k), WithMembers(s[1..], k), c);
  }

  lemma InsertBehindShape(g: Guild, sorted: seq<Guild>)
    requires sorted != [] && sorted[0].memberCount >= g.memberCount
    ensures Insert(g, sorted) != []
    ensures Insert(g, sorted)[0] == sorted[0] && Insert(g, sorted)[1..] == Insert(g, sorted[1..])
  {
  }

  lemma WithMembersHead(s: seq<Guild>, k: nat)
    requires s != []
    ensures WithMembers(s, k) == Own(s[0], k) + WithMembers(s[1..], k)
  {
  }

  /** `InsertStable` when `g` outnumbers the head and goes first. */
  lemma InsertStableAhead(g: Guild, sorted: seq<Guild>, k: nat)
    requires Descending(sorted)
    requires sorted != [] && sorted[0].memberCount < g.memberCount
    ensures WithMembers(Insert(g, sorted), k) == WithMembers(sorted, k) + Own(g, k)
  {
    assert Insert(g, sorted) == [g] + sorted;
    WithMembersCons(g, sorted, k);
    if g.memberCount == k {
      forall i | 0 <= i < |sorted| ensures sorted[i].memberCount != k {
        assert sorted[0].memberCount >= sorted[i].memberCount;
      }
      WithMembersNone(sorted, k);
    }
  }

  /** Stability: for every member count, the guilds with that count come out
      in the order they went in. */
  lemma {:induction false} SortStable(s: seq<Guild>, k: nat)
    ensures WithMembers(SortByMembers(s), k) == WithMembers(s, k)
  {
    if s != [] {
      var init, last := s[..|s| - 1], s[|s| - 1];
      SortStable(init, k);
      InsertStable(last, SortByMembers(init), k);
      WithMembersSnoc(s, k);
    }
  }

  lemma WithMembersSnoc(s: seq<Guild>, k: nat)
    requires s != []
    ensures WithMembers(s, k) == WithMembers(s[..|s| - 1], k) + Own(s[|s| - 1], k)
  {
    var init, last := s[..|s| - 1], s[|s| - 1];
    assert s == init + [last];
    WithMembersConcat(init, [last], k);
    WithMembersCons(last, [], k);
    assert [last] + [] == [last];
  }

  /** bot-owner.js:203-205: the guilds shown by `servers`. Every guild left
      out has no more members than the last one shown. */
  function Rank(guilds: seq<Guild>): (top: seq<Guild>)
    ensures |top| == Min(|guilds|, Shown)
    ensures Descending(top)
    ensures multiset(top) <= multiset(guilds)
    ensures forall g :: g in multiset(guilds) - multiset(top) ==> 0 < |top| && g.memberCount <= top[|top| - 1].memberCount
  {
    var sorted := SortByMembers(guilds);
    var n := Min(|guilds|, Shown);
    Cut(sorted, n);
    sorted[..n]
  }

  /** Cutting a descending sequence after `n` guilds: the kept part is
      descending, and everything cut off is no larger than the last guild
      kept. */
  lemma Cut(sorted: seq<Guild>, n: nat)
    requires Descending(sorted) && n <= |sorted| && (n == 0 ==> sorted == [])
    ensures Descending(sorted[..n])
    ensures multiset(sorted) == multiset(sorted[..n]) + multiset(sorted[n..])
    ensures forall g :: g in multiset(sorted) - multiset(sorted[..n]) ==> 0 < n && g.memberCount <= sorted[n - 1].memberCount
  {
    assert sorted == sorted[..n] + sorted[n..];
    var top := sorted[..n];
    forall i, j | 0 <= i < j < |top| ensures top[i].memberCount >= top[j].memberCount {
      assert top[i] == sorted[i] && top[j] == sorted[j];
    }
    forall g | g in multiset(sorted) - multiset(top) ensures 0 < n && g.memberCount <= sorted[n - 1].memberCount {
      assert g in sorted[n..];
      var j :| 0 <= j < |sorted[n..]| && sorted[n..][j] == g;
      assert sorted[n + j] == g;
    }
  }

  /** The ranking keeps the input order among guilds of equal size: the
      shown guilds with `k` members are the first of the input's guilds
      with `k` members, in input order. */
  lemma RankStable(guilds: seq<Guild>, k: nat)
    ensures WithMembers(Rank(guilds), k) <= WithMembers(guilds, k)
  {
    var sorted := SortByMembers(guilds);
    var n := Min(|guilds|, Shown);
    assert sorted == sorted[..n] + sorted[n..];
    WithMembersConcat(sorted[..n], sorted[n..], k);
    SortStable(guilds, k);
  }

  lemma InsertBehindOne(x: Guild, g: Guild)
    requires x.memberCount >= g.memberCount
    ensures Insert(g, [x]) == [x, g]
  {
    assert [x][1..] == [];
  }

  lemma InsertBehindTwo(x: Guild, y: Guild, g: Guild)
    requires x.memberCount >= g.memberCount && y.memberCount >= g.memberCount
    ensures Insert(g, [x, y]) == [x, y, g]
  {
    assert [x, y][1..] == [y];
    InsertBehindOne(y, g);
  }

  lemma SortInOrder(a: Guild, b: Guild, c: Guild)
    requires a.memberCount >= b.memberCount >= c.memberCount
    ensures SortByMembers([a, b, c]) == [a, b, c]
  {
    assert [a, b, c][..2] == [a, b] && [a, b][..1] == [a] && [a][..0] == [];
    assert SortByMembers([a]) == [a];
    InsertBehindOne(a, b);
    InsertBehindTwo(a, b, c);
  }

  /** Guilds with 50, 50 and 10 members, in that order, are shown in that
      order: the tie keeps the input order. */
  lemma TieKeepsInputOrder(a: Guild, b: Guild, c: Guild)
    requires a.memberCount == 50 && b.memberCount == 50 && c.memberCount == 10
    ensures Rank([a, b, c]) == [a, b, c]
  {
    SortInOrder(a, b, c);
    assert [a, b, c][..3] == [a, b, c];
  }

  /** One line of the server list: its position, name, member count and
      ticket total. */
  datatype ServerRow = ServerRow(position: nat, name: string, memberCount: nat, tickets: int)

  /** bot-owner.js:213-218: number the shown guilds from 1 and attach each
      one's ticket total. */
  method Annotate(top: seq<Guild>, statsOf: string -> TicketStats) returns (rows: seq<ServerRow>)
    ensures |rows| == |top|
    ensures forall i :: 0 <= i < |top| ==>
              rows[i] == ServerRow(i + 1, top[i].name, top[i].memberCount, statsOf(top[i].id).totalTickets)
  {
    rows := [];
    for index := 0 to |top|
      invariant |rows| == index
      invariant forall i :: 0 <= i < index ==>
                  rows[i] == ServerRow(i + 1, top[i].name, top[i].memberCount, statsOf(top[i].id).totalTickets)
    {
      var guild := top[index];
      var stats := statsOf(guild.id);
      rows := rows + [ServerRow(index + 1, guild.name, guild.memberCount, stats.totalTickets)];
    }
  }

}
