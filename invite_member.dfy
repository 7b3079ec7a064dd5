/** The client's invite-member dialog: the candidate list without current
    members, the case-insensitive name search and the set of users invited
    from this dialog. */
module InviteMemberDialog {
  import opened Wrappers
  import opened Text
  import ClientLists

  /** The `Brawler` fields the dialog reads. */
  datatype Candidate = Candidate(id: int, displayName: string)

  /** `allUsers.filter(u => !currentMembers.has(u.id))`. */
  function NonMembers(all: seq<Candidate>, members: set<int>): (r: seq<Candidate>)
    ensures forall i :: 0 <= i < |r| ==> r[i].id !in members
    ensures forall u :: u in r <==> u in all && u.id !in members
    ensures ClientLists.Subsequence(r, all)
  {
    var keep := (u: Candidate) => u.id !in members;
    ClientLists.FilterCounts(all, keep);
    ClientLists.FilterMembers(all, keep);
    ClientLists.FilterSubsequence(all, keep);
    ClientLists.Filter(all, keep)
  }

  /** Whether a user's display name matches the search term, both lowered
      (ASCII letters only). */
  predicate Matches(u: Candidate, term: string) {
    Contains(LowerAscii(u.displayName), LowerAscii(term))
  }

  /** `onSearchChange` for the current term: every user for the empty term,
      otherwise the users whose name contains the term, in order. */
  function Search(users: seq<Candidate>, term: string): (r: seq<Candidate>)
    ensures term == [] ==> r == users
    ensures ClientLists.Subsequence(r, users)
    ensures term != [] ==> forall u :: u in r <==> u in users && Matches(u, term)
  {
    if term == [] then
      ClientLists.SubsequenceRefl(users);
      users
    else
      var keep := (u: Candidate) => Matches(u, term);
      ClientLists.FilterMembers(users, keep);
      ClientLists.FilterSubsequence(users, keep);
      ClientLists.Filter(users, keep)
  }

  /** The search ignores the case of ASCII letters in the term. */
  lemma SearchCaseInsensitive(users: seq<Candidate>, term: string)
    requires term != []
    ensures Search(users, LowerAscii(term)) == Search(users, term)
  {
    assert LowerAscii(LowerAscii(term)) == LowerAscii(term);
    ClientLists.FilterAgree(users, (u: Candidate) => Matches(u, LowerAscii(term)), (u: Candidate) => Matches(u, term));
  }

  /** A search never brings back a user the list it searches left out. */
  lemma SearchExcludes(users: seq<Candidate>, term: string, members: set<int>)
    requires forall i :: 0 <= i < |users| ==> users[i].id !in members
    ensures forall i :: 0 <= i < |Search(users, term)| ==> Search(users, term)[i].id !in members
  {
    var r := Search(users, term);
    forall i | 0 <= i < |r| ensures r[i].id !in members {
      if term != [] {
        assert r[i] in users;
        var j :| 0 <= j < |users| && users[j] == r[i];
      }
    }
  }

  /** `InviteMemberComponent`. */
  class InviteMember {
    const missionId: int
    const currentMembers: set<int>
    var users: seq<Candidate>
    var filteredUsers: seq<Candidate>
    var searchTerm: string
    var invitedUsers: set<int>

    /** The dialog data: the mission and the ids of its current members. */
    constructor (missionId: int, members: seq<int>)
      ensures this.missionId == missionId
      ensures currentMembers == set i | i in members
      ensures users == [] && filteredUsers == [] && searchTerm == [] && invitedUsers == {}
      ensures NoMemberOffered()
    {
      this.missionId := missionId;
      currentMembers := set i | i in members;
      users := [];
      filteredUsers := [];
      searchTerm := [];
      invitedUsers := {};
    }

    /** The dialog never lists a current member, loaded or shown: the
        invariant every method keeps. */
    predicate NoMemberOffered()
      reads this
    {
      (forall i :: 0 <= i < |users| ==> users[i].id !in currentMembers)
      && (forall i :: 0 <= i < |filteredUsers| ==> filteredUsers[i].id !in currentMembers)
    }

    /** `ngOnInit`: `allUsers` is the user list request's result, `None`
        when it throws, in which case nothing changes. */
    method Init(allUsers: Option<seq<Candidate>>)
      modifies this
      ensures allUsers.Some? ==> users == NonMembers(allUsers.value, currentMembers) && filteredUsers == users
      ensures allUsers.None? ==> users == old(users) && filteredUsers == old(filteredUsers)
      ensures allUsers.Some? || old(NoMemberOffered()) ==> NoMemberOffered()
      ensures searchTerm == old(searchTerm) && invitedUsers == old(invitedUsers)
    {
      if allUsers.Some? {
        users := NonMembers(allUsers.value, currentMembers);
        filteredUsers := users;
      }
    }

    /** `onSearchChange` after the term is edited to `term`. */
    method OnSearchChange(term: string)
      modifies this
      ensures searchTerm == term && filteredUsers == Search(users, term)
      ensures users == old(users) && invitedUsers == old(invitedUsers)
      ensures old(NoMemberOffered()) ==> NoMemberOffered()
    {
      searchTerm := term;
      filteredUsers := Search(users, term);
      if forall i :: 0 <= i < |users| ==> users[i].id !in currentMembers {
        SearchExcludes(users, term, currentMembers);
      }
    }

    /** `invite(user)`: `callOk` says whether the invite request succeeded;
        only then is the user remembered as invited. */
    method Invite(user: Candidate, callOk: bool)
      modifies this
      ensures invitedUsers == if callOk then old(invitedUsers) + {user.id} else old(invitedUsers)
      ensures users == old(users) && filteredUsers == old(filteredUsers) && searchTerm == old(searchTerm)
      ensures old(NoMemberOffered()) ==> NoMemberOffered()
    {
      if callOk {
        invitedUsers := invitedUsers + {user.id};
      }
    }

    /** `isInvited(userId)`. */
    predicate IsInvited(userId: int)
      reads this
    {
      userId in invitedUsers
    }
  }
}
