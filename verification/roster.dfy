/** The setup-phase roster: an ordered list of player display names that
    `addPlayer` grows one trimmed, previously unseen name at a time. */
module Roster {
  import opened Text
  import opened Seqs

  /** How many times `name` occurs in the roster. */
  function Occurrences(roster: seq<string>, name: string): nat {
    multiset(roster)[name]
  }

  /** `addPlayer`: the typed input is trimmed; a non-empty name that is not
      already on the roster (exact, case-sensitive comparison) goes on the
      end, anything else leaves the roster as it was. */
  function AddPlayer(roster: seq<string>, input: string): (r: seq<string>)
    ensures var name := Trim(input);
            && (name != "" && name !in roster ==> r == roster + [name])
            && (name == "" || name in roster ==> r == roster)
  {
    var name := Trim(input);
    if name != "" && name !in roster then roster + [name] else roster
  }

  /** A roster built only by `AddPlayer` never holds the same name twice. */
  lemma AddPlayerKeepsNoDup(roster: seq<string>, input: string)
    requires NoDup(roster)
    ensures NoDup(AddPlayer(roster, input))
  {
  }

  /** Entering the same text a second time changes nothing. */
  lemma AddPlayerIdempotent(roster: seq<string>, input: string)
    ensures AddPlayer(AddPlayer(roster, input), input) == AddPlayer(roster, input)
  {
  }

  /** Entering a name twice on a duplicate-free roster leaves exactly one
      copy of it, and the roster grows by at most one entry. */
  lemma AddTwiceLeavesOneCopy(roster: seq<string>, input: string)
    requires NoDup(roster)
    ensures var r := AddPlayer(AddPlayer(roster, input), input);
            && (Trim(input) != "" ==> Occurrences(r, Trim(input)) == 1)
            && |r| <= |roster| + 1
  {
    var r := AddPlayer(AddPlayer(roster, input), input);
    AddPlayerKeepsNoDup(roster, input);
    AddPlayerIdempotent(roster, input);
    NoDupAtMostOnce(r, Trim(input));
    if Trim(input) != "" {
      assert Trim(input) in multiset(r);
    }
  }

  /** Surrounding whitespace is dropped but letter case is kept, so " bob "
      is a different player from "Bob". */
  lemma AddPlayerCaseSensitive()
    ensures AddPlayer(["Bob"], " bob ") == ["Bob", "bob"]
  {
    var pad, name := " ", "bob";
    assert AllWhitespace(pad) && IsTrimmed(name);
    TrimOfPadded(pad, name, pad);
    assert pad + name + pad == " bob ";
    assert name[0] != "Bob"[0];
    assert name !in ["Bob"];
  }
}
