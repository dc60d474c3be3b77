/** The rule-based controller: a stateless map from the observed temperature
    to an action. */
module Agent {
  import Furnace

  /** The agent keeps only the target band it was built with. */
  datatype RuleBasedAgent = RuleBasedAgent(targetRange: (int, int)) {

    /** Heat below the band, cool above it, and heat inside it (there is no
        hold action). The lower-bound test comes first, so with a band whose
        lower end exceeds its upper end, temperatures between the two heat. */
    function Act(temperature: int): (action: int)
      ensures action == Furnace.Heat || action == Furnace.Cool
      ensures action == Furnace.Cool <==> targetRange.0 <= temperature && temperature > targetRange.1
    {
      if temperature < targetRange.0 then Furnace.Heat
      else if temperature > targetRange.1 then Furnace.Cool
      else Furnace.Heat
    }
  }

  /** For a well-formed band the agent cools exactly above the upper bound,
      and heats below the band, inside it and on both of its edges. */
  lemma ActOnWellFormedBand(low: int, high: int, temperature: int)
    requires low <= high
    ensures RuleBasedAgent((low, high)).Act(temperature) == Furnace.Cool <==> temperature > high
    ensures RuleBasedAgent((low, high)).Act(low) == Furnace.Heat
    ensures RuleBasedAgent((low, high)).Act(high) == Furnace.Heat
  {
  }

  /** An agent built with the environment's own band cools only when the
      environment would withhold the reward. */
  lemma ActAgreesWithReward(c: Furnace.Config, temperature: int)
    ensures RuleBasedAgent(c.targetRange).Act(temperature) == Furnace.Cool ==>
              Furnace.Reward(c, temperature) == -1.0
    ensures Furnace.Reward(c, temperature) == 1.0 ==>
              RuleBasedAgent(c.targetRange).Act(temperature) == Furnace.Heat
  {
  }
}
