/**
  * The people view (Sources/parallax/Views/PeopleOrbitView.swift): the label
  * under each contact bubble, and the view model that collects the distinct
  * participants of the recent chats.
  *
  * The messages service is replaced by its answers: `chats` holds, for each
  * recent chat in order, the participant handles the service returns.
  */
module PeopleOrbitView {
  import opened Wrappers
  import opened Strings
  import opened Contacts

  /** Unresolved handles longer than this are truncated. */
  const LabelLimit: nat := 10
  const Ellipsis: string := "..."
  /** At most this many participants are published. */
  const MaxParticipants: nat := 150

  /**
    * `ContactBubble.displayName`: a resolved contact is labelled by its given
    * name, or its family name when the given name is empty; an unresolved
    * handle by itself, cut to ten characters followed by "..." when longer.
    */
  function BubbleLabel(identifier: string, resolved: Option<Contact>): (r: string)
    ensures resolved.Some? && resolved.value.givenName != [] ==> r == resolved.value.givenName
    ensures resolved.Some? && resolved.value.givenName == [] ==> r == resolved.value.familyName
    ensures resolved.None? && |identifier| <= LabelLimit ==> r == identifier
    ensures resolved.None? && |identifier| > LabelLimit ==>
      |r| == LabelLimit + |Ellipsis| && r[..LabelLimit] == identifier[..LabelLimit] && r[LabelLimit..] == Ellipsis
  {
    if resolved.Some? then
      var first := resolved.value.givenName;
      if first == [] then resolved.value.familyName else first
    else if |identifier| > LabelLimit then
      identifier[..LabelLimit] + Ellipsis
    else
      identifier
  }

  /** An unresolved label is at most thirteen characters and begins like the handle. */
  lemma UnresolvedLabelIsShortPrefix(identifier: string)
    ensures |BubbleLabel(identifier, None)| <= LabelLimit + |Ellipsis|
    ensures var n := if |identifier| < LabelLimit then |identifier| else LabelLimit;
      BubbleLabel(identifier, None)[..n] == identifier[..n]
  {
  }

  /** The non-empty handles of one chat, in a set. */
  function NonEmptyOf(parts: seq<string>): set<string> {
    if parts == [] then {}
    else
      var p := parts[|parts| - 1];
      NonEmptyOf(parts[..|parts| - 1]) + (if p != [] then {p} else {})
  }

  /** The non-empty handles of all chats, in a set. */
  function NonEmptyHandles(chats: seq<seq<string>>): set<string> {
    if chats == [] then {}
    else NonEmptyHandles(chats[..|chats| - 1]) + NonEmptyOf(chats[|chats| - 1])
  }

  lemma {:induction false} NonEmptyOfMembership(parts: seq<string>, p: string)
    ensures p in NonEmptyOf(parts) <==> p != [] && p in parts
  {
    if parts != [] {
      var init := parts[..|parts| - 1];
      NonEmptyOfMembership(init, p);
      assert parts == init + [parts[|parts| - 1]];
    }
  }

  /**
    * The collected handles are exactly the non-empty handles that occur in
    * some chat's participant list.
    */
  lemma {:induction false} NonEmptyHandlesMembership(chats: seq<seq<string>>, p: string)
    ensures p in NonEmptyHandles(chats) <==>
      p != [] && exists i :: 0 <= i < |chats| && p in chats[i]
  {
    if chats != [] {
      var n := |chats| - 1;
      NonEmptyHandlesMembership(chats[..n], p);
      NonEmptyOfMembership(chats[n], p);
      if p != [] && exists i :: 0 <= i < |chats| && p in chats[i] {
        var i :| 0 <= i < |chats| && p in chats[i];
        if i < n {
          assert chats[..n][i] == chats[i];
        }
      }
      if exists i :: 0 <= i < |chats[..n]| && p in chats[..n][i] {
        var i :| 0 <= i < |chats[..n]| && p in chats[..n][i];
        assert chats[i] == chats[..n][i];
      }
    }
  }

  predicate NoDuplicates(s: seq<string>) {
    forall i, j :: 0 <= i < j < |s| ==> s[i] != s[j]
  }

  /**
    * What the view model may publish for `chats`: distinct handles, each a
    * collected one, as many as there are up to 150. Which ones are kept
    * when there are more, and their order, follow the unspecified order of
    * a Swift `Set`.
    */
  ghost predicate IsParticipantSelection(chats: seq<seq<string>>, ps: seq<string>) {
    && NoDuplicates(ps)
    && (forall i :: 0 <= i < |ps| ==> ps[i] in NonEmptyHandles(chats))
    && |ps| == if |NonEmptyHandles(chats)| < MaxParticipants then |NonEmptyHandles(chats)| else MaxParticipants
  }

  /** A published participant is never empty and always occurs in some chat. */
  lemma SelectionIsFromChats(chats: seq<seq<string>>, ps: seq<string>, k: nat)
    requires IsParticipantSelection(chats, ps)
    requires k < |ps|
    ensures ps[k] != []
    ensures exists i :: 0 <= i < |chats| && ps[k] in chats[i]
    ensures |ps| <= MaxParticipants
  {
    NonEmptyHandlesMembership(chats, ps[k]);
  }

  /**
    * The body of the loading task: insert every non-empty handle of every
    * chat into a set, then keep at most 150 of them.
    */
  method ExtractParticipants(chats: seq<seq<string>>) returns (limited: seq<string>)
    ensures IsParticipantSelection(chats, limited)
  {
    var extracted: set<string> := {};
    for i := 0 to |chats|
      invariant extracted == NonEmptyHandles(chats[..i])
    {
      var parts := chats[i];
      assert chats[..i + 1][..i] == chats[..i];
      var before := extracted;
      for j := 0 to |parts|
        invariant extracted == before + NonEmptyOf(parts[..j])
      {
        assert parts[..j + 1][..j] == parts[..j];
        if parts[j] != [] {
          extracted := extracted + {parts[j]};
        }
      }
      assert parts[..|parts|] == parts;
    }
    assert chats[..|chats|] == chats;

    // `prefix(150)` of the set, taken in the set's own (unspecified) order.
    limited := [];
    var rest := extracted;
    while |limited| < MaxParticipants && rest != {}
      invariant rest <= extracted
      invariant |limited| <= MaxParticipants
      invariant NoDuplicates(limited)
      invariant forall k :: 0 <= k < |limited| ==> limited[k] in extracted && limited[k] !in rest
      invariant |limited| + |rest| == |extracted|
      decreases rest
    {
      var p :| p in rest;
      limited := limited + [p];
      rest := rest - {p};
    }
  }

  /** The view model behind the people view. */
  class PeopleOrbitViewModel {
    var participants: seq<string>
    var isLoading: bool

    constructor ()
      ensures participants == [] && isLoading
    {
      participants := [];
      isLoading := true;
    }

    /** `loadParticipants`, before its background task runs: loading starts. */
    method LoadParticipants()
      modifies this
      ensures isLoading
      ensures participants == old(participants)
    {
      isLoading := true;
    }

    /** The end of the background task: the participants are published and loading stops. */
    method PublishParticipants(chats: seq<seq<string>>)
      modifies this
      ensures !isLoading
      ensures IsParticipantSelection(chats, participants)
    {
      var limited := ExtractParticipants(chats);
      participants := limited;
      isLoading := false;
    }
  }
}
