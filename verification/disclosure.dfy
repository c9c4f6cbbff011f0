/** End-of-round disclosure (`revealImposter`): the names on imposter cards,
    in roster order, rendered as one sentence. */
module Disclosure {
  import opened Text
  import opened Seqs
  import opened Roles

  const SingularLead := "The imposter was: "
  const PluralLead := "The imposters were: "

  /** Singular wording for exactly one imposter card, plural wording with a
      comma-separated list otherwise (also for none). */
  function RevealText(roles: seq<Assignment>): (r: string)
    ensures var names := ImposterNames(roles);
            && (|names| == 1 <==> |SingularLead| <= |r| && r[..|SingularLead|] == SingularLead)
            && (|names| == 1 ==> r[|SingularLead|..] == names[0])
            && (|names| != 1 ==> |PluralLead| <= |r| && r[..|PluralLead|] == PluralLead)
            && (|names| != 1 ==> r[|PluralLead|..] == Join(names, ListSeparator))
  {
    var names := ImposterNames(roles);
    if |names| == 1 then SingularLead + names[0]
    else
      var r := PluralLead + Join(names, ListSeparator);
      assert r[12] == 's' != SingularLead[12];
      r
  }

  lemma {:induction false} ImposterNamesSingle(roles: seq<Assignment>, i: int)
    requires 0 <= i < |roles| && roles[i].role == ImposterRole
    requires forall j :: 0 <= j < |roles| && j != i ==> roles[j].role != ImposterRole
    ensures ImposterNames(roles) == [roles[i].name]
    decreases |roles|
  {
    if i == 0 {
      ImposterNamesNone(roles[1..]);
    } else {
      ImposterNamesSingle(roles[1..], i - 1);
    }
  }

  lemma {:induction false} ImposterNamesNone(roles: seq<Assignment>)
    requires forall j :: 0 <= j < |roles| ==> roles[j].role != ImposterRole
    ensures ImposterNames(roles) == []
    decreases |roles|
  {
    if |roles| > 0 {
      ImposterNamesNone(roles[1..]);
    }
  }

  /** When exactly one card says "Imposter", the sentence names that
      player in the singular. */
  lemma RevealOneImposter(roles: seq<Assignment>, i: int)
    requires 0 <= i < |roles| && roles[i].role == ImposterRole
    requires forall j :: 0 <= j < |roles| && j != i ==> roles[j].role != ImposterRole
    ensures RevealText(roles) == SingularLead + roles[i].name
  {
    ImposterNamesSingle(roles, i);
  }

  /** When no card says "Imposter", the plural lead stands alone. */
  lemma RevealNoImposter(roles: seq<Assignment>)
    requires forall j :: 0 <= j < |roles| ==> roles[j].role != ImposterRole
    ensures RevealText(roles) == PluralLead
  {
    ImposterNamesNone(roles);
    assert PluralLead + "" == PluralLead;
  }

  /** The disclosure after a round: with one imposter it names the first
      player of the shuffle; otherwise it lists, in roster order, exactly the
      players the shuffle selected, every one of them. */
  lemma RevealOfRound(players: seq<string>, entry: WordEntry, order: seq<string>, k: int, hints: bool)
    requires NoDup(players) && IsShuffleOf(order, players)
    requires 0 <= k <= |players|
    requires entry.word != ImposterRole
    ensures var text := RevealText(AssignRoles(players, entry, order, k, hints));
            var listed := FilterIn(players, order[..k]);
            && |listed| == k
            && Elements(listed) == Elements(order[..k])
            && (k == 1 ==> text == SingularLead + order[0])
            && (k != 1 ==> text == PluralLead + Join(listed, ListSeparator))
  {
    var roles := AssignRoles(players, entry, order, k, hints);
    ImposterNamesOfAssignment(players, entry, order, k, hints);
    ImposterCountExact(players, entry, order, k, hints);
    assert SliceTo(order, k) == order[..k];
    var listed := FilterIn(players, order[..k]);
    if k == 1 {
      assert listed[0] in Elements(order[..1]);
    }
  }
}
