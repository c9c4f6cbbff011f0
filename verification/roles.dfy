/** Role assignment for one round (`assignRolesAndStart`): a secret word is
    drawn, the roster is shuffled and its first `imposterCount` names become
    imposters, and every player receives a `{name, role, info}` record. */
module Roles {
  import opened Text
  import opened Seqs

  /** One entry of the word list. */
  datatype WordEntry = WordEntry(word: string, hint: string)

  /** What one player's card shows. */
  datatype Assignment = Assignment(name: string, role: string, info: string)

  const ImposterRole := "Imposter"
  const HintLead := "Hint: "
  const NoHintPrompt := "Figure out the secret word!"
  const CrewNotice := "You are NOT the imposter"
  const PartnersLabel := "<br><br>Your partners: "
  const ListSeparator := ", "

  /** `order.slice(0, k)` with JavaScript's handling of the end index: a
      negative `k` counts back from the end, a large one is clamped. */
  function SliceTo<T>(order: seq<T>, k: int): (r: seq<T>)
    ensures |r| <= |order| && r == order[..|r|]
    ensures 0 <= k ==> |r| == if k < |order| then k else |order|
    ensures k < 0 ==> |r| == if |order| + k < 0 then 0 else |order| + k
  {
    var n := |order|;
    var end := if k < 0 then (if n + k < 0 then 0 else n + k) else if k < n then k else n;
    order[..end]
  }

  /** The hint, or the generic prompt when hints are switched off. */
  function ImposterBase(entry: WordEntry, hints: bool): (r: string)
    ensures hints ==> |r| == |HintLead| + |entry.hint| && r[..|HintLead|] == HintLead && r[|HintLead|..] == entry.hint
    ensures !hints ==> r == NoHintPrompt
  {
    if hints then HintLead + entry.hint else NoHintPrompt
  }

  /** The partner list an imposter sees: only when more than one imposter
      was selected, naming the others in selection order. */
  function PartnerSuffix(selected: seq<string>, name: string): (r: string)
    ensures r == "" <==> |selected| <= 1
    ensures |selected| > 1 ==>
              && |PartnersLabel| <= |r| && r[..|PartnersLabel|] == PartnersLabel
              && r[|PartnersLabel|..] == Join(Without(selected, name), ListSeparator)
  {
    if |selected| > 1 then PartnersLabel + Join(Without(selected, name), ListSeparator) else ""
  }

  /** The card of one player, given the selected imposters. */
  function RoleFor(name: string, selected: seq<string>, entry: WordEntry, hints: bool): (a: Assignment)
    ensures a.name == name
    ensures name in selected ==> a.role == ImposterRole
    ensures name !in selected ==> a.role == entry.word && a.info == CrewNotice
  {
    if name in selected then
      Assignment(name, ImposterRole, ImposterBase(entry, hints) + PartnerSuffix(selected, name))
    else
      Assignment(name, entry.word, CrewNotice)
  }

  /** `assignRolesAndStart` minus the randomness: `entry` is the drawn word
      and `order` the shuffled copy of the roster. One record per player in
      roster order; every non-imposter is told the same word. */
  function AssignRoles(players: seq<string>, entry: WordEntry, order: seq<string>, k: int, hints: bool)
    : (r: seq<Assignment>)
    ensures |r| == |players|
    ensures forall i :: 0 <= i < |r| ==> r[i].name == players[i]
    ensures forall i :: 0 <= i < |r| ==> (players[i] in SliceTo(order, k) ==> r[i].role == ImposterRole)
    ensures forall i :: 0 <= i < |r| ==>
              (players[i] !in SliceTo(order, k) ==> r[i].role == entry.word && r[i].info == CrewNotice)
    ensures forall i, j :: 0 <= i < |r| && 0 <= j < |r| && r[i].role != ImposterRole && r[j].role != ImposterRole
              ==> r[i].role == r[j].role
  {
    var selected := SliceTo(order, k);
    seq(|players|, i requires 0 <= i < |players| => RoleFor(players[i], selected, entry, hints))
  }

  /** The names on imposter cards, in card order (the filter at the start
      of `revealImposter`). */
  function ImposterNames(roles: seq<Assignment>): (r: seq<string>)
    ensures |r| <= |roles|
    ensures forall x :: x in r <==> exists i :: 0 <= i < |roles| && roles[i].role == ImposterRole && roles[i].name == x
  {
    if |roles| == 0 then []
    else
      var rest := ImposterNames(roles[1..]);
      assert forall x :: x in rest <==> exists i :: 1 <= i < |roles| && roles[i].role == ImposterRole && roles[i].name == x by {
        forall x | x in rest
          ensures exists i :: 1 <= i < |roles| && roles[i].role == ImposterRole && roles[i].name == x
        {
          var j :| 0 <= j < |roles[1..]| && roles[1..][j].role == ImposterRole && roles[1..][j].name == x;
          assert roles[j + 1] == roles[1..][j];
        }
        forall x, i | 1 <= i < |roles| && roles[i].role == ImposterRole && roles[i].name == x
          ensures x in rest
        {
          assert roles[1..][i - 1] == roles[i];
        }
      }
      (if roles[0].role == ImposterRole then [roles[0].name] else []) + rest
  }

  lemma {:induction false} ImposterNamesOfRoles(players: seq<string>, selected: seq<string>,
                                               entry: WordEntry, hints: bool)
    requires entry.word != ImposterRole
    ensures ImposterNames(seq(|players|, i requires 0 <= i < |players| => RoleFor(players[i], selected, entry, hints)))
            == FilterIn(players, selected)
    decreases |players|
  {
    var r := seq(|players|, i requires 0 <= i < |players| => RoleFor(players[i], selected, entry, hints));
    if |players| > 0 {
      var t := players[1..];
      ImposterNamesOfRoles(t, selected, entry, hints);
      assert r[1..] == seq(|t|, i requires 0 <= i < |t| => RoleFor(t[i], selected, entry, hints));
    }
  }

  /** The imposter cards name exactly the filter of the roster by the
      selected prefix of the shuffle, in roster order. */
  lemma ImposterNamesOfAssignment(players: seq<string>, entry: WordEntry, order: seq<string>, k: int, hints: bool)
    requires entry.word != ImposterRole
    ensures ImposterNames(AssignRoles(players, entry, order, k, hints)) == FilterIn(players, SliceTo(order, k))
  {
    ImposterNamesOfRoles(players, SliceTo(order, k), entry, hints);
  }

  /** Exact imposter count: on a duplicate-free roster shuffled into `order`,
      with `0 <= k <= |players|`, exactly `k` cards say "Imposter", and their
      names are precisely the first `k` names of the shuffle. */
  lemma ImposterCountExact(players: seq<string>, entry: WordEntry, order: seq<string>, k: int, hints: bool)
    requires NoDup(players) && IsShuffleOf(order, players)
    requires 0 <= k <= |players|
    requires entry.word != ImposterRole
    ensures |ImposterNames(AssignRoles(players, entry, order, k, hints))| == k
    ensures Elements(ImposterNames(AssignRoles(players, entry, order, k, hints))) == Elements(order[..k])
  {
    var selected := SliceTo(order, k);
    assert selected == order[..k];
    ImposterNamesOfAssignment(players, entry, order, k, hints);
    PermutationKeepsNoDup(players, order);
    assert NoDup(selected);
    PermutationPrefixMembers(players, order, k);
    FilterInSize(players, selected);
  }

  /** An imposter's card: the hint (or prompt), then, when two or more
      imposters were selected, the partner label and the other selected
      imposters in selection order, never the player themself. */
  lemma ImposterInfoShape(players: seq<string>, entry: WordEntry, order: seq<string>, k: int, hints: bool, i: int)
    requires NoDup(order)
    requires 0 <= i < |players| && players[i] in SliceTo(order, k)
    ensures var r := AssignRoles(players, entry, order, k, hints);
            var selected := SliceTo(order, k);
            var base := if hints then HintLead + entry.hint else NoHintPrompt;
            var partners := Without(selected, players[i]);
            && r[i].role == ImposterRole
            && (|selected| <= 1 ==> r[i].info == base)
            && (|selected| > 1 ==> r[i].info == base + PartnersLabel + Join(partners, ListSeparator))
            && |partners| == |selected| - 1
            && players[i] !in partners
            && (forall x :: x in partners <==> x in selected && x != players[i])
  {
    var selected := SliceTo(order, k);
    assert NoDup(selected) by {
      assert selected == order[..|selected|];
    }
    var partners := Without(selected, players[i]);
    WithoutOfNoDup(selected, players[i]);
    var r := AssignRoles(players, entry, order, k, hints);
    var base := ImposterBase(entry, hints);
    assert r[i] == RoleFor(players[i], selected, entry, hints);
    assert r[i].info == base + PartnerSuffix(selected, players[i]);
    if |selected| > 1 {
      assert r[i].info == base + PartnersLabel + Join(partners, ListSeparator);
    }
  }

  /** With hints on the imposter card opens with "Hint: " and the hint. */
  lemma ImposterInfoStartsWithHint(players: seq<string>, entry: WordEntry, order: seq<string>, k: int, i: int)
    requires 0 <= i < |players| && players[i] in SliceTo(order, k)
    ensures var info := AssignRoles(players, entry, order, k, true)[i].info;
            var prefix := HintLead + entry.hint;
            |prefix| <= |info| && info[..|prefix|] == prefix
  {
  }

  /** With exactly two imposters, each one's partner list is the other. */
  lemma PairPartners(a: string, b: string)
    requires a != b
    ensures PartnerSuffix([a, b], a) == PartnersLabel + b
    ensures PartnerSuffix([a, b], b) == PartnersLabel + a
  {
    assert [a, b][1..] == [b];
    assert [b][1..] == [];
    assert Without([b], a) == [b] + Without([], a) == [b];
    assert Without([a, b], a) == [b];
    assert Without([b], b) == Without([], b) == [];
    assert Without([a, b], b) == [a] + Without([b], b) == [a];
  }

  /** Without hints, the card of one of exactly two selected imposters
      reads the prompt and then names the other one. */
  lemma PairCard(players: seq<string>, entry: WordEntry, order: seq<string>, i: int)
    requires |order| >= 2 && order[0] != order[1]
    requires 0 <= i < |players| && (players[i] == order[0] || players[i] == order[1])
    ensures var other := if players[i] == order[0] then order[1] else order[0];
            AssignRoles(players, entry, order, 2, false)[i].info == NoHintPrompt + PartnersLabel + other
  {
    var a, b := order[0], order[1];
    assert SliceTo(order, 2) == [a, b];
    assert AssignRoles(players, entry, order, 2, false)[i] == RoleFor(players[i], [a, b], entry, false);
    PairRoleInfo(players[i], a, b, entry);
  }

  /** The card of `x`, one of two selected imposters `a` and `b`. */
  lemma PairRoleInfo(x: string, a: string, b: string, entry: WordEntry)
    requires a != b && (x == a || x == b)
    ensures x == a ==> RoleFor(x, [a, b], entry, false).info == NoHintPrompt + PartnersLabel + b
    ensures x == b ==> RoleFor(x, [a, b], entry, false).info == NoHintPrompt + PartnersLabel + a
  {
    PairPartners(a, b);
    ImposterCardInfo(x, [a, b], entry, false);
    var info, base, suffix := RoleFor(x, [a, b], entry, false).info, ImposterBase(entry, false), PartnerSuffix([a, b], x);
    ConcatThree(info, base, suffix, NoHintPrompt, PartnersLabel, if x == a then b else a);
  }

  /** Rewriting both halves of a two-part string. */
  lemma ConcatThree(s: string, u: string, v: string, p: string, l: string, o: string)
    requires s == u + v && u == p && v == l + o
    ensures s == p + l + o
  {
  }

  /** A selected player's card text is the opening line and the partner text. */
  lemma ImposterCardInfo(x: string, selected: seq<string>, entry: WordEntry, hints: bool)
    requires x in selected
    ensures RoleFor(x, selected, entry, hints).info == ImposterBase(entry, hints) + PartnerSuffix(selected, x)
  {
  }

  /** Four players, two imposters, no hints: each imposter's card names the
      other one as partner, and nothing else. */
  lemma TwoImpostersSeeEachOther(players: seq<string>, entry: WordEntry, order: seq<string>)
    requires NoDup(players) && |players| == 4 && IsShuffleOf(order, players)
    ensures var r := AssignRoles(players, entry, order, 2, false);
            && (exists i :: 0 <= i < 4 && r[i].name == order[0]
                  && r[i].info == NoHintPrompt + PartnersLabel + order[1])
            && (exists i :: 0 <= i < 4 && r[i].name == order[1]
                  && r[i].info == NoHintPrompt + PartnersLabel + order[0])
  {
    var r := AssignRoles(players, entry, order, 2, false);
    PermutationKeepsNoDup(players, order);
    var a, b := order[0], order[1];
    assert a in multiset(players) && b in multiset(players);
    var i0 :| 0 <= i0 < 4 && players[i0] == a;
    var i1 :| 0 <= i1 < 4 && players[i1] == b;
    PairCard(players, entry, order, i0);
    PairCard(players, entry, order, i1);
    assert r[i0].name == a && r[i1].name == b;
  }
}
