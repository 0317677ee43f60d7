/**
  * The details sidebar (Sources/parallax/Views/ContactDetailSidebar.swift):
  * its title, and for each participant the resolved name and whether the
  * raw handle is shown underneath it.
  */
module ContactDetailSidebar {
  import opened Wrappers
  import opened Strings
  import opened Contacts
  import opened ChatsView

  /**
    * The sidebar's title: the chat name, or the identifier when the name is
    * empty. This view reads the chat name as a plain string.
    */
  function HeaderTitle(name: string, identifier: string): (r: string)
    ensures name == [] ==> r == identifier
    ensures name != [] ==> r == name
  {
    if name == [] then identifier else name
  }

  /** `resolveName(for:)`: the resolved contact's name, or the handle itself. */
  function ResolveName(id: string, resolved: Option<Contact>): (r: string)
    ensures resolved.Some? ==> r == ContactName(resolved.value)
    ensures resolved.None? ==> r == id
  {
    if resolved.Some? then ContactName(resolved.value) else id
  }

  /**
    * The raw handle is shown under the name whenever the name differs from
    * it; an unresolved participant is shown by its handle alone, never twice.
    */
  predicate ShowsRawHandle(participant: string, resolved: Option<Contact>): (shows: bool)
    ensures shows ==> resolved.Some?
  {
    ResolveName(participant, resolved) != participant
  }

  /** Only a non-empty handle can resolve. */
  lemma ResolvedHandleIsNonEmpty(m: map<string, Contact>, handle: string, r: Option<Contact>)
    requires Resolves(m, handle, r)
    requires r.Some?
    ensures handle != []
  {
  }

  /**
    * A participant resolved to a contact with neither given nor family name
    * shows an empty name, and so always shows the raw handle under it.
    */
  lemma NamelessContactShowsRawHandle(m: map<string, Contact>, participant: string, r: Option<Contact>)
    requires Resolves(m, participant, r)
    requires r.Some? && r.value.givenName == [] && r.value.familyName == []
    ensures ResolveName(participant, r) == []
    ensures ShowsRawHandle(participant, r)
  {
    ResolvedHandleIsNonEmpty(m, participant, r);
  }
}
