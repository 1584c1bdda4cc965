/**
 * The two enumerations models.py declares, `PortState` and `NetworkState`:
 * the same pairs of codes and descriptions, in two distinct classes.
 */
module States {
  import opened Wrappers
  import opened Naming
  import opened DeclEnum

  /** The class body both declare: `up = ('U', "Up")` and `down = ('D', "Down")`. */
  const StateBody: seq<(string, Attribute)> := [("up", TupleAttr(["U", "Up"])), ("down", TupleAttr(["D", "Down"]))]

  /** Building `PortState` registers one symbol per code, owned by the class, and sets it as the attribute `up` or `down`. */
  lemma PortStateRegistry()
    ensures Build("PortState", DeclEnumBase, StateBody).Ok?
    ensures Build("PortState", DeclEnumBase, StateBody).value.reg ==
              map["U" := EnumSymbol("PortState", "up", "U", "Up"), "D" := EnumSymbol("PortState", "down", "D", "Down")]
    ensures Build("PortState", DeclEnumBase, StateBody).value.members ==
              map["up" := EnumSymbol("PortState", "up", "U", "Up"), "down" := EnumSymbol("PortState", "down", "D", "Down")]
  {
  }

  lemma NetworkStateRegistry()
    ensures Build("NetworkState", DeclEnumBase, StateBody).Ok?
    ensures Build("NetworkState", DeclEnumBase, StateBody).value.reg ==
              map["U" := EnumSymbol("NetworkState", "up", "U", "Up"), "D" := EnumSymbol("NetworkState", "down", "D", "Down")]
    ensures Build("NetworkState", DeclEnumBase, StateBody).value.members ==
              map["up" := EnumSymbol("NetworkState", "up", "U", "Up"), "down" := EnumSymbol("NetworkState", "down", "D", "Down")]
  {
  }

  /**
   * Both enumerations accept exactly the codes "U" and "D", yet a code loads
   * as a different symbol in each: the symbols carry their class.
   */
  lemma StatesShareCodesNotSymbols()
    ensures var port := Build("PortState", DeclEnumBase, StateBody);
            var network := Build("NetworkState", DeclEnumBase, StateBody);
            port.Ok? && network.Ok? &&
            Values(port.value) == {"U", "D"} && Values(network.value) == {"U", "D"} &&
            FromString(port.value, "U").Ok? && FromString(network.value, "U").Ok? &&
            FromString(port.value, "U") != FromString(network.value, "U") &&
            FromString(port.value, "X") == Err(ValueError("PortState", "X"))
  {
    PortStateRegistry();
    NetworkStateRegistry();
  }

  lemma PortStateWords()
    ensures Concat(["Port", "State"]) == "PortState"
    ensures IsCapitalisedWord("Port") && IsCapitalisedWord("State")
    ensures Lower(JoinWords(["Port", "State"])) == "port_state"
  {
  }

  lemma NetworkStateWords()
    ensures Concat(["Network", "State"]) == "NetworkState"
    ensures IsCapitalisedWord("Network") && IsCapitalisedWord("State")
    ensures Lower(JoinWords(["Network", "State"])) == "network_state"
  {
  }

  /** The check constraint of the `PortState` column type. */
  lemma PortStateConstraintName()
    ensures ConstraintName("PortState") == "ck_port_state"
  {
    PortStateWords();
    ConstraintNameOfWords(["Port", "State"]);
    assert "ck_" + "port_state" == "ck_port_state";
  }

  /** The check constraint of the `NetworkState` column type. */
  lemma NetworkStateConstraintName()
    ensures ConstraintName("NetworkState") == "ck_network_state"
  {
    NetworkStateWords();
    ConstraintNameOfWords(["Network", "State"]);
    assert "ck_" + "network_state" == "ck_network_state";
  }
}
