/** The planner's and scheduler's shared work meter. */
module Budgets {

  class WorkBudget {
    var used: nat
    const maximum: nat

    ghost predicate Valid()
      reads this
    {
      used <= maximum
    }

    constructor (maximum: nat)
      ensures Valid() && used == 0 && this.maximum == maximum
    {
      this.maximum := maximum;
      used := 0;
    }

    /** Charges the units or charges nothing; the meter never passes its maximum. */
    method Consume(units: nat) returns (ok: bool)
      requires Valid()
      modifies this
      ensures Valid()
      ensures ok <==> old(used) + units <= maximum
      ensures used == if ok then old(used) + units else old(used)
    {
      if units > maximum - used {
        return false;
      }
      used := used + units;
      return true;
    }
  }
}
