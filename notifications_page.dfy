/** The client's notifications page: accept and decline buttons guarded by
    a set of invite ids whose request is in flight. Requests are taken to
    complete before the next click is handled. */
module NotificationsPage {
  import opened Wrappers
  import InviteService

  /** `processing.update(...)` inside `setProcessing(id, state)`. */
  function SetProcessing(processing: set<int>, id: int, state: bool): (r: set<int>)
    ensures id in r <==> state
    ensures forall other :: other != id ==> (other in r <==> other in processing)
  {
    if state then processing + {id} else processing - {id}
  }

  /** Marking and unmarking an id that was not marked restores the set. */
  lemma MarkUnmark(processing: set<int>, id: int)
    requires id !in processing
    ensures SetProcessing(SetProcessing(processing, id, true), id, false) == processing
  {
  }

  /** `NotificationsComponent`, sharing the invite service's list. */
  class Page {
    const service: InviteService.Service
    var processing: set<int>

    constructor (service: InviteService.Service)
      ensures this.service == service && processing == {}
    {
      this.service := service;
      processing := {};
    }

    predicate IsProcessing(id: int)
      reads this
    {
      id in processing
    }

    method Mark(id: int, state: bool)
      modifies this
      ensures processing == SetProcessing(old(processing), id, state)
    {
      processing := SetProcessing(processing, id, state);
    }

    /** `accept(inviteId)`: a click on an id already in flight returns at
        once; otherwise the id is marked, the service is called and the mark
        is removed whether the call succeeded or not. */
    method Accept(inviteId: int, reply: Result<string, string>) returns (called: bool)
      modifies this, service
      ensures called <==> inviteId !in old(processing)
      ensures !called ==> processing == old(processing) && service.invites == old(service.invites)
      ensures called ==> processing == old(processing) && inviteId !in processing
      ensures called ==> (service.invites ==
        if reply.Ok? then InviteService.WithoutId(old(service.invites), inviteId) else old(service.invites))
    {
      if IsProcessing(inviteId) {
        return false;
      }
      Mark(inviteId, true);
      var _ := service.Accept(inviteId, reply);
      Mark(inviteId, false);
      called := true;
    }

    /** `decline(inviteId)`: the same guard, then the confirmation dialog,
        whose answer is `confirmed`, before the id is marked. */
    method Decline(inviteId: int, confirmed: bool, reply: Result<string, string>) returns (called: bool)
      modifies this, service
      ensures called <==> inviteId !in old(processing) && confirmed
      ensures !called ==> processing == old(processing) && service.invites == old(service.invites)
      ensures called ==> processing == old(processing) && inviteId !in processing
      ensures called ==> (service.invites ==
        if reply.Ok? then InviteService.WithoutId(old(service.invites), inviteId) else old(service.invites))
    {
      if IsProcessing(inviteId) {
        return false;
      }
      if !confirmed {
        return false;
      }
      Mark(inviteId, true);
      var _ := service.Decline(inviteId, reply);
      Mark(inviteId, false);
      called := true;
    }
  }
}
