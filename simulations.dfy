/**
 * The two notifications of simulations.py. They only print; here each one
 * appends its payload to the log of messages sent.
 */
module Simulations {

  datatype Message =
    | SupervisorText(question: string, requestId: int)
    | CustomerCallback(customerId: string, answer: string)

  class Gateway {
    var sent: seq<Message>

    constructor ()
      ensures sent == []
    {
      sent := [];
    }

    /** `simulate_supervisor_text`. */
    method SimulateSupervisorText(question: string, requestId: int)
      modifies this
      ensures sent == old(sent) + [SupervisorText(question, requestId)]
    {
      sent := sent + [SupervisorText(question, requestId)];
    }

    /** `simulate_customer_callback`. */
    method SimulateCustomerCallback(customerId: string, answer: string)
      modifies this
      ensures sent == old(sent) + [CustomerCallback(customerId, answer)]
    {
      sent := sent + [CustomerCallback(customerId, answer)];
    }
  }
}
