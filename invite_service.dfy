/** The client's invite service: the local list of the signed-in member's
    pending invites, pruned after an accepted or declined invite and
    replaced after a reload. */
module InviteService {
  import opened Wrappers
  import ClientLists

  /** The invite fields the client list keeps. */
  datatype InviteItem = InviteItem(id: int, missionId: int, missionName: string)

  /** `prev.filter(i => i.id !== inviteId)`: every item with that id goes,
      every other item stays, in order. */
  function WithoutId(items: seq<InviteItem>, inviteId: int): (r: seq<InviteItem>)
    ensures forall i :: 0 <= i < |r| ==> r[i].id != inviteId
    ensures forall x :: multiset(r)[x] == if x.id != inviteId then multiset(items)[x] else 0
    ensures ClientLists.Subsequence(r, items)
  {
    var keep := (x: InviteItem) => x.id != inviteId;
    ClientLists.FilterCounts(items, keep);
    ClientLists.FilterSubsequence(items, keep);
    ClientLists.Filter(items, keep)
  }

  /** Pruning twice by the same id is pruning once. */
  lemma WithoutIdIdempotent(items: seq<InviteItem>, inviteId: int)
    ensures WithoutId(WithoutId(items, inviteId), inviteId) == WithoutId(items, inviteId)
  {
    var r := WithoutId(items, inviteId);
    ClientLists.FilterKeepsAll(r, (x: InviteItem) => x.id != inviteId);
  }

  /** `InviteService` with its `invites` signal. An HTTP reply is `Ok` with
      its body or `Err` with the thrown error's text. */
  class Service {
    var invites: seq<InviteItem>

    constructor ()
      ensures invites == []
    {
      invites := [];
    }

    /** `accept(inviteId)`: the list is pruned only after the request
        succeeded; a failed request leaves it untouched and is rethrown. */
    method Accept(inviteId: int, reply: Result<string, string>) returns (r: Result<string, string>)
      modifies this
      ensures r == reply
      ensures invites == if reply.Ok? then WithoutId(old(invites), inviteId) else old(invites)
    {
      r := reply;
      if reply.Ok? {
        invites := WithoutId(invites, inviteId);
      }
    }

    /** `decline(inviteId)`: the same pruning as `accept`. */
    method Decline(inviteId: int, reply: Result<string, string>) returns (r: Result<string, string>)
      modifies this
      ensures r == reply
      ensures invites == if reply.Ok? then WithoutId(old(invites), inviteId) else old(invites)
    {
      r := reply;
      if reply.Ok? {
        invites := WithoutId(invites, inviteId);
      }
    }

    /** `getMyInvites()`: the server's list replaces the local one and is
        returned. */
    method GetMyInvites(reply: Result<seq<InviteItem>, string>) returns (r: Result<seq<InviteItem>, string>)
      modifies this
      ensures r == reply
      ensures invites == if reply.Ok? then reply.value else old(invites)
    {
      r := reply;
      if reply.Ok? {
        invites := reply.value;
      }
    }
  }
}
