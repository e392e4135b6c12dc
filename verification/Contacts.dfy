/** The contacts table: creating a contact as an upsert by scanning a channel for the phone
    number, and why the scan behaves as a map from numbers to contacts. */
module Contacts {
  import opened Common
  import opened PhoneNormalize

  type AccountId = nat
  type OrganizationId = nat
  type ChannelId = nat
  type ContactId = nat

  datatype Channel = Channel(account: AccountId, organization: OrganizationId, deleted: bool)

  datatype Profile = Profile(
    displayName: Option<string>,
    email: Option<string>,
    language: Option<string>,
    countryCode: Option<string>)

  datatype Contact = Contact(
    organization: OrganizationId,
    channel: ChannelId,
    address: string,
    deleted: bool,
    profile: Profile)

  /** `next` is above every id in use. */
  datatype State = State(channels: map<ChannelId, Channel>, contacts: map<ContactId, Contact>, next: nat)

  datatype Payload = Payload(
    account: AccountId,
    organization: OrganizationId,
    channel: ChannelId,
    address: string,
    profile: Profile)

  datatype CreateError = InvalidChannel | ChannelOrganizationMismatch | InvalidPhone | UniqueViolation

  datatype CreateResult = Saved(id: ContactId) | Refused(error: CreateError)

  /** Fields the request leaves out keep their stored value. */
  function Overlay(stored: Profile, given: Profile): Profile {
    Profile(
      if given.displayName.Some? then given.displayName else stored.displayName,
      if given.email.Some? then given.email else stored.email,
      if given.language.Some? then given.language else stored.language,
      if given.countryCode.Some? then given.countryCode else stored.countryCode)
  }

  function CodeOf(p: Payload): string {
    if p.profile.countryCode.Some? then p.profile.countryCode.value else DEFAULT_COUNTRY_CODE
  }

  function NumberOf(p: Payload): string {
    NormalizeWhatsappPhone(p.address, CodeOf(p))
  }

  /** The first check that fails before the table is touched. */
  function Precheck(channels: map<ChannelId, Channel>, p: Payload): Option<CreateError> {
    if p.channel !in channels then Some(InvalidChannel)
    else if channels[p.channel].account != p.account || channels[p.channel].deleted then Some(InvalidChannel)
    else if channels[p.channel].organization != p.organization then Some(ChannelOrganizationMismatch)
    else if NumberOf(p) == "" then Some(InvalidPhone)
    else None
  }

  predicate OnChannel(c: Contact, organization: OrganizationId, channel: ChannelId) {
    c.organization == organization && c.channel == channel
  }

  predicate LiveOn(c: Contact, organization: OrganizationId, channel: ChannelId) {
    OnChannel(c, organization, channel) && !c.deleted
  }

  /** The number the scan compares with: the requested one, normalised once more. */
  function SoughtNumber(p: Payload): string {
    NormalizeWhatsappPhone(NumberOf(p), CodeOf(p))
  }

  /** A live contact on the channel whose number matches the one requested. */
  ghost predicate Matches(contacts: map<ContactId, Contact>, id: ContactId, p: Payload) {
    && id in contacts && LiveOn(contacts[id], p.organization, p.channel)
    && PhonesMatch(contacts[id].address, SoughtNumber(p), CodeOf(p))
  }

  /** Some row other than `id`, deleted or not, already holds the address on the channel. */
  predicate Taken(contacts: map<ContactId, Contact>, id: ContactId, p: Payload) {
    exists k :: k in contacts && k != id && OnChannel(contacts[k], p.organization, p.channel)
                && contacts[k].address == NumberOf(p)
  }

  function NewContact(p: Payload): Contact {
    Contact(p.organization, p.channel, NumberOf(p), false, p.profile)
  }

  /** One call of create_contact. Which of several matching rows a scan meets first is up to
      the database. */
  ghost predicate Creates(s: State, p: Payload, t: State, r: CreateResult) {
    var failed := Precheck(s.channels, p);
    if failed.Some? then t == s && r == Refused(failed.value)
    else if exists id :: Matches(s.contacts, id, p) then
      exists id :: Matches(s.contacts, id, p) && Updates(s, p, id, t, r)
    else if Taken(s.contacts, s.next, p) then t == s && r == Refused(UniqueViolation)
    else Inserts(s, p, t, r)
  }

  ghost predicate Inserts(s: State, p: Payload, t: State, r: CreateResult) {
    r == Saved(s.next) && t == s.(contacts := s.contacts[s.next := NewContact(p)], next := s.next + 1)
  }

  ghost predicate Updates(s: State, p: Payload, id: ContactId, t: State, r: CreateResult)
    requires id in s.contacts
  {
    var c := s.contacts[id];
    if Taken(s.contacts, id, p) then t == s && r == Refused(UniqueViolation)
    else
      && r == Saved(id)
      && t == s.(contacts := s.contacts[id := c.(address := NumberOf(p), profile := Overlay(c.profile, p.profile))])
  }

  /** A WhatsApp message from a sender without a country code of its own. */
  function Sender(organization: OrganizationId, channel: ChannelId, number: string, name: Option<string>): Payload {
    Payload(0, organization, channel, number, Profile(name, None, None, None))
  }

  predicate NameMissing(c: Contact) {
    c.profile.displayName.None? || c.profile.displayName.value == ""
  }

  predicate NamesContact(p: Payload, c: Contact) {
    p.profile.displayName.Some? && p.profile.displayName.value != "" && NameMissing(c)
  }

  /** What an inbound message does to the table: the contact of the sender is found by the same
      scan, and given a name, or else the number's normal form; or it is inserted. */
  ghost predicate Receives(s: State, p: Payload, t: State, r: CreateResult) {
    if NumberOf(p) == "" then t == s && r == Refused(InvalidPhone)
    else if exists id :: Matches(s.contacts, id, p) then
      exists id :: Matches(s.contacts, id, p) && Greets(s, p, id, t, r)
    else if Taken(s.contacts, s.next, p) then t == s && r == Refused(UniqueViolation)
    else Inserts(s, p, t, r)
  }

  ghost predicate Greets(s: State, p: Payload, id: ContactId, t: State, r: CreateResult)
    requires id in s.contacts
  {
    var c := s.contacts[id];
    if NamesContact(p, c) then
      && r == Saved(id)
      && t == s.(contacts := s.contacts[id := c.(profile := c.profile.(displayName := p.profile.displayName))])
    else if c.address == NumberOf(p) then r == Saved(id) && t == s
    else if Taken(s.contacts, id, p) then t == s && r == Refused(UniqueViolation)
    else r == Saved(id) && t == s.(contacts := s.contacts[id := c.(address := NumberOf(p))])
  }

  class ContactBook {
    var channels: map<ChannelId, Channel>
    var contacts: map<ContactId, Contact>
    var next: nat

    ghost function View(): State
      reads this
    {
      State(channels, contacts, next)
    }

    constructor (channels: map<ChannelId, Channel>)
      ensures View() == State(channels, map[], 0)
    {
      this.channels, contacts, next := channels, map[], 0;
    }

    /** Scans the channel's live contacts, in whatever order they come, up to the first match. */
    method FindContactOnChannelByPhone(p: Payload) returns (found: Option<ContactId>)
      ensures found.Some? ==> Matches(contacts, found.value, p)
      ensures found.None? ==> forall id :: !Matches(contacts, id, p)
    {
      if SoughtNumber(p) == "" {
        return None;
      }
      var rows := set id | id in contacts && LiveOn(contacts[id], p.organization, p.channel);
      var left := rows;
      while left != {}
        invariant left <= rows
        invariant forall id :: id in rows && id !in left ==> !Matches(contacts, id, p)
        decreases left
      {
        var id :| id in left;
        if PhonesMatch(contacts[id].address, SoughtNumber(p), CodeOf(p)) {
          return Some(id);
        }
        left := left - {id};
      }
      return None;
    }

    method CreateContact(p: Payload) returns (r: CreateResult)
      modifies this
      ensures Creates(old(View()), p, View(), r)
    {
      var failed := Precheck(channels, p);
      if failed.Some? {
        return Refused(failed.value);
      }
      var found := FindContactOnChannelByPhone(p);
      if found.Some? {
        var id := found.value;
        if Taken(contacts, id, p) {
          r := Refused(UniqueViolation);
        } else {
          var c := contacts[id];
          contacts := contacts[id := c.(address := NumberOf(p), profile := Overlay(c.profile, p.profile))];
          r := Saved(id);
        }
        assert Updates(old(View()), p, id, View(), r);
      } else {
        r := Insert(p);
      }
    }

    method Insert(p: Payload) returns (r: CreateResult)
      modifies this`contacts, this`next
      ensures if Taken(old(contacts), old(next), p) then View() == old(View()) && r == Refused(UniqueViolation)
              else Inserts(old(View()), p, View(), r)
    {
      if Taken(contacts, next, p) {
        return Refused(UniqueViolation);
      }
      contacts := contacts[next := NewContact(p)];
      next := next + 1;
      return Saved(next - 1);
    }

    /** The contact part of handling an inbound WhatsApp message. */
    method ReceiveMessage(organization: OrganizationId, channel: ChannelId, number: string, name: Option<string>)
      returns (r: CreateResult)
      modifies this`contacts, this`next
      ensures Receives(old(View()), Sender(organization, channel, number, name), View(), r)
    {
      var p := Sender(organization, channel, number, name);
      if NumberOf(p) == "" {
        return Refused(InvalidPhone);
      }
      var found := FindContactOnChannelByPhone(p);
      if found.None? {
        r := Insert(p);
        return;
      }
      var id := found.value;
      var c := contacts[id];
      r := Saved(id);
      if NamesContact(p, c) {
        contacts := contacts[id := c.(profile := c.profile.(displayName := name))];
      } else if c.address != NumberOf(p) {
        if Taken(contacts, id, p) {
          r := Refused(UniqueViolation);
        } else {
          contacts := contacts[id := c.(address := NumberOf(p))];
        }
      }
      assert Greets(old(View()), p, id, View(), r);
    }

    method SoftDelete(id: ContactId)
      modifies this`contacts
      ensures View() == Deleted(old(View()), id)
    {
      if id in contacts {
        contacts := contacts[id := contacts[id].(deleted := true)];
      }
    }
  }

  function Deleted(s: State, id: ContactId): State {
    if id in s.contacts then s.(contacts := s.contacts[id := s.contacts[id].(deleted := true)]) else s
  }

  // ----- the index the scan amounts to

  /** What a live contact is found by: its channel and the number its address stands for under
      the default country code. */
  datatype Entry = Entry(organization: OrganizationId, channel: ChannelId, number: string)

  function EntryOf(c: Contact): Option<Entry> {
    var number := NormalizeWhatsappPhone(c.address, DEFAULT_COUNTRY_CODE);
    if c.deleted || number == "" then None else Some(Entry(c.organization, c.channel, number))
  }

  /** No two contacts are found by the same key. Stated for any way of computing keys, so that
      reasoning about an index never looks inside the phone arithmetic. */
  ghost predicate Injective<K>(contacts: map<ContactId, Contact>, key: Contact -> Option<K>) {
    forall a, b :: a in contacts && b in contacts && key(contacts[a]).Some? && key(contacts[a]) == key(contacts[b]) ==>
        a == b
  }

  ghost function IndexBy<K>(contacts: map<ContactId, Contact>, key: Contact -> Option<K>): map<K, ContactId>
    requires Injective(contacts, key)
  {
    map id | id in contacts && key(contacts[id]).Some? :: key(contacts[id]).value := id
  }

  /** The key of `c` is the row's own or nobody's. */
  ghost predicate MayBind<K>(contacts: map<ContactId, Contact>, key: Contact -> Option<K>, id: ContactId, c: Contact) {
    key(c).Some? &&
    if id in contacts then key(contacts[id]) == key(c) else forall k :: k in contacts ==> key(contacts[k]) != key(c)
  }

  lemma BindingKeepsInjective<K>(contacts: map<ContactId, Contact>, key: Contact -> Option<K>, id: ContactId,
                                 c: Contact)
    requires Injective(contacts, key) && MayBind(contacts, key, id, c)
    ensures Injective(contacts[id := c], key)
  {
  }

  /** Writing such a row binds exactly its key. */
  lemma BindingUpdatesIndex<K>(contacts: map<ContactId, Contact>, key: Contact -> Option<K>, id: ContactId, c: Contact)
    requires Injective(contacts, key) && MayBind(contacts, key, id, c)
    ensures Injective(contacts[id := c], key)
    ensures IndexBy(contacts[id := c], key) == IndexBy(contacts, key)[key(c).value := id]
  {
    BindingKeepsInjective(contacts, key, id, c);
    var after := contacts[id := c];
    assert key(after[id]).value in IndexBy(after, key);
    forall e | e in IndexBy(contacts, key) ensures e in IndexBy(after, key) {
      assert key(after[IndexBy(contacts, key)[e]]) == Some(e);
    }
  }

  lemma IndexHolds<K>(contacts: map<ContactId, Contact>, key: Contact -> Option<K>, k: ContactId, e: K)
    requires Injective(contacts, key)
    ensures k in contacts && key(contacts[k]) == Some(e)
            <==> e in IndexBy(contacts, key) && IndexBy(contacts, key)[e] == k
  {
    if k in contacts && key(contacts[k]) == Some(e) {
      assert key(contacts[k]).value in IndexBy(contacts, key);
    }
  }

  lemma UnbindingKeepsInjective<K>(contacts: map<ContactId, Contact>, key: Contact -> Option<K>, id: ContactId,
                                   c: Contact)
    requires Injective(contacts, key) && id in contacts && key(c).None?
    ensures Injective(contacts[id := c], key)
  {
  }

  lemma UnbindingAt<K>(contacts: map<ContactId, Contact>, key: Contact -> Option<K>, id: ContactId, c: Contact, e: K)
    requires Injective(contacts, key) && id in contacts && key(c).None? && Injective(contacts[id := c], key)
    ensures var before, after := IndexBy(contacts, key), IndexBy(contacts[id := c], key);
            && (e in after <==> e in before && key(contacts[id]) != Some(e))
            && (e in after ==> after[e] == before[e])
  {
    var before, after := IndexBy(contacts, key), IndexBy(contacts[id := c], key);
    if e in after {
      IndexHolds(contacts[id := c], key, after[e], e);
      IndexHolds(contacts, key, after[e], e);
    }
    if e in before {
      IndexHolds(contacts, key, before[e], e);
      IndexHolds(contacts[id := c], key, before[e], e);
    }
  }

  /** Writing a row without a key removes what the row was found by, if anything. */
  lemma UnbindingUpdatesIndex<K>(contacts: map<ContactId, Contact>, key: Contact -> Option<K>, id: ContactId,
                                 c: Contact)
    requires Injective(contacts, key) && id in contacts && key(c).None?
    ensures Injective(contacts[id := c], key)
    ensures IndexBy(contacts[id := c], key)
            == if key(contacts[id]).Some? then IndexBy(contacts, key) - {key(contacts[id]).value}
               else IndexBy(contacts, key)
  {
    UnbindingKeepsInjective(contacts, key, id, c);
    var before, after := IndexBy(contacts, key), IndexBy(contacts[id := c], key);
    forall e ensures e in after <==> e in before && key(contacts[id]) != Some(e)
             ensures e in after ==> after[e] == before[e]
    {
      UnbindingAt(contacts, key, id, c, e);
    }
    LosesKey(before, after, key(contacts[id]));
  }

  lemma LosesKey<K>(before: map<K, ContactId>, after: map<K, ContactId>, gone: Option<K>)
    requires forall e :: e in after <==> e in before && gone != Some(e)
    requires forall e :: e in after ==> after[e] == before[e]
    ensures after == if gone.Some? then before - {gone.value} else before
  {
  }

  ghost predicate Inv(s: State) {
    Injective(s.contacts, EntryOf) && forall id :: id in s.contacts ==> id < s.next
  }

  ghost function Index(s: State): map<Entry, ContactId>
    requires Inv(s)
  {
    IndexBy(s.contacts, EntryOf)
  }

  /** The request's country code has no digits of its own (or is the default), as for every
      two-letter code. */
  predicate DefaultCode(p: Payload) {
    CountryDigits(CodeOf(p)) == DEFAULT_COUNTRY_CODE
  }

  function Requested(p: Payload): Entry {
    Entry(p.organization, p.channel, NumberOf(p))
  }

  lemma DefaultCodeIsDefault(value: string, countryCode: string)
    requires CountryDigits(countryCode) == DEFAULT_COUNTRY_CODE
    ensures NormalizeWhatsappPhone(value, countryCode) == NormalizeWhatsappPhone(value, DEFAULT_COUNTRY_CODE)
  {
    DefaultIsDigits();
    DigitsOfDigits(DEFAULT_COUNTRY_CODE);
  }

  /** A contact matches a request exactly when it is found by the requested entry. */
  lemma MatchIsEntry(contacts: map<ContactId, Contact>, p: Payload, id: ContactId)
    requires DefaultCode(p) && NumberOf(p) != ""
    ensures Matches(contacts, id, p) <==> id in contacts && EntryOf(contacts[id]) == Some(Requested(p))
  {
    NormalizeTwiceDefault(p.address, CodeOf(p));
    if id in contacts {
      DefaultCodeIsDefault(contacts[id].address, CodeOf(p));
    }
  }

  lemma SavedEntry(p: Payload, profile: Profile)
    requires DefaultCode(p) && NumberOf(p) != ""
    ensures EntryOf(Contact(p.organization, p.channel, NumberOf(p), false, profile)) == Some(Requested(p))
  {
    NormalizeTwiceDefault(p.address, CodeOf(p));
    DefaultCodeIsDefault(NumberOf(p), CodeOf(p));
  }

  // ----- every way of writing a contact is an upsert

  /** The entry ends bound to the contact returned, the one already bound if there is one, and
      no other entry moves; a refusal changes nothing. */
  ghost predicate Upserts(s: State, e: Entry, t: State, r: CreateResult)
    requires Inv(s)
  {
    && Inv(t) && t.channels == s.channels
    && (r.Refused? ==> t == s)
    && (r.Saved? ==>
          && Index(t) == Index(s)[e := r.id]
          && if e in Index(s) then r.id == Index(s)[e] else r.id !in s.contacts)
  }

  /** Row by row: nothing disappears or moves, deleted rows are not touched, and an address only
      ever changes into the number it already stood for. */
  ghost predicate Tracks(s: State, e: Entry, t: State) {
    && (forall k :: k in s.contacts ==>
          && k in t.contacts && OnChannel(t.contacts[k], s.contacts[k].organization, s.contacts[k].channel)
          && t.contacts[k].deleted == s.contacts[k].deleted
          && (t.contacts[k].address != s.contacts[k].address ==>
                EntryOf(s.contacts[k]) == Some(e) && t.contacts[k].address == e.number))
    && (forall k :: k in t.contacts && k !in s.contacts ==>
          OnChannel(t.contacts[k], e.organization, e.channel) && t.contacts[k].address == e.number
          && !t.contacts[k].deleted)
  }

  /** One row is written: the one bound to the entry, or a new one if there is none. */
  ghost predicate Writes(s: State, e: Entry, t: State, id: ContactId) {
    && t.channels == s.channels && id < t.next && s.next <= t.next
    && id in t.contacts && t.contacts == s.contacts[id := t.contacts[id]]
    && EntryOf(t.contacts[id]) == Some(e)
    && if id in s.contacts then
         && EntryOf(s.contacts[id]) == Some(e)
         && (t.contacts[id].address == s.contacts[id].address || t.contacts[id].address == e.number)
       else
         && id == s.next && t.contacts[id].address == e.number
         && forall k :: k in s.contacts ==> EntryOf(s.contacts[k]) != Some(e)
  }

  lemma IndexedWhere(s: State, e: Entry)
    requires Inv(s)
    ensures e in Index(s) <==> exists k :: k in s.contacts && EntryOf(s.contacts[k]) == Some(e)
    ensures e in Index(s) ==> Index(s)[e] in s.contacts && EntryOf(s.contacts[Index(s)[e]]) == Some(e)
  {
    if k :| k in s.contacts && EntryOf(s.contacts[k]) == Some(e) {
      assert EntryOf(s.contacts[k]).value in Index(s);
    }
  }

  lemma WritingUpserts(s: State, e: Entry, t: State, id: ContactId)
    requires Inv(s) && Writes(s, e, t, id)
    ensures Upserts(s, e, t, Saved(id))
  {
    BindingUpdatesIndex(s.contacts, EntryOf, id, t.contacts[id]);
    IndexedWhere(s, e);
  }

  lemma WritingTracks(s: State, e: Entry, t: State, id: ContactId)
    requires Inv(s) && Writes(s, e, t, id)
    ensures Tracks(s, e, t)
  {
  }

  lemma MatchesAreEntries(contacts: map<ContactId, Contact>, p: Payload)
    requires DefaultCode(p) && NumberOf(p) != ""
    ensures forall id :: Matches(contacts, id, p) <==> id in contacts && EntryOf(contacts[id]) == Some(Requested(p))
  {
    forall id ensures Matches(contacts, id, p) <==> id in contacts && EntryOf(contacts[id]) == Some(Requested(p)) {
      MatchIsEntry(contacts, p, id);
    }
  }

  lemma CreateWrites(s: State, p: Payload, t: State, r: CreateResult)
    requires Inv(s) && DefaultCode(p) && Creates(s, p, t, r) && r.Saved?
    ensures Writes(s, Requested(p), t, r.id)
    ensures t.contacts[r.id].address == NumberOf(p)
  {
    MatchesAreEntries(s.contacts, p);
    SavedEntry(p, t.contacts[r.id].profile);
  }

  lemma GreetingWrites(s: State, p: Payload, id: ContactId, t: State, r: CreateResult)
    requires Inv(s) && id in s.contacts && EntryOf(s.contacts[id]) == Some(Requested(p))
    requires EntryOf(NewContact(p)) == Some(Requested(p)) && Greets(s, p, id, t, r) && r.Saved?
    ensures Writes(s, Requested(p), t, id)
  {
    assert t.contacts == s.contacts[id := t.contacts[id]];
  }

  lemma ReceiveWrites(s: State, p: Payload, t: State, r: CreateResult)
    requires Inv(s) && DefaultCode(p) && Receives(s, p, t, r) && r.Saved?
    ensures Writes(s, Requested(p), t, r.id)
  {
    MatchesAreEntries(s.contacts, p);
    SavedEntry(p, p.profile);
    if id :| Matches(s.contacts, id, p) && Greets(s, p, id, t, r) {
      GreetingWrites(s, p, id, t, r);
    }
  }

  /** create_contact refines a map upsert. */
  lemma CreateRefinesUpsert(s: State, p: Payload, t: State, r: CreateResult)
    requires Inv(s) && DefaultCode(p) && Creates(s, p, t, r)
    ensures Upserts(s, Requested(p), t, r) && Tracks(s, Requested(p), t)
  {
    if r.Saved? {
      CreateWrites(s, p, t, r);
      WritingUpserts(s, Requested(p), t, r.id);
      WritingTracks(s, Requested(p), t, r.id);
    }
  }

  /** So does the contact part of an inbound message. */
  lemma ReceiveRefinesUpsert(s: State, p: Payload, t: State, r: CreateResult)
    requires Inv(s) && DefaultCode(p) && Receives(s, p, t, r)
    ensures Upserts(s, Requested(p), t, r) && Tracks(s, Requested(p), t)
  {
    if r.Saved? {
      ReceiveWrites(s, p, t, r);
      WritingUpserts(s, Requested(p), t, r.id);
      WritingTracks(s, Requested(p), t, r.id);
    }
  }

  // ----- what a call stores

  /** The profile keeps what it had and takes over what it was given. */
  ghost predicate TakesOver(stored: Profile, given: Profile, result: Profile) {
    && (given.displayName != None ==> result.displayName == given.displayName)
    && (given.displayName == None ==> result.displayName == stored.displayName)
    && (given.email != None ==> result.email == given.email)
    && (given.email == None ==> result.email == stored.email)
    && (given.language != None ==> result.language == given.language)
    && (given.language == None ==> result.language == stored.language)
    && (given.countryCode != None ==> result.countryCode == given.countryCode)
    && (given.countryCode == None ==> result.countryCode == stored.countryCode)
  }

  /** A saved contact is live, on the channel, and has the fields given; others stay as stored. */
  lemma CreateStores(s: State, p: Payload, t: State, r: CreateResult)
    requires Creates(s, p, t, r) && r.Saved? && (forall id :: id in s.contacts ==> id < s.next)
    ensures r.id in t.contacts
    ensures var c := t.contacts[r.id];
            && OnChannel(c, p.organization, p.channel) && !c.deleted && c.address == NumberOf(p)
            && (r.id in s.contacts ==> TakesOver(s.contacts[r.id].profile, p.profile, c.profile))
            && (r.id !in s.contacts ==> c.profile == p.profile)
    ensures forall id :: id in s.contacts && id != r.id ==> id in t.contacts && t.contacts[id] == s.contacts[id]
  {
  }

  /** The contact as it was, named if it had no name; an existing name is never replaced. */
  ghost predicate NamedIfNameless(before: Profile, name: Option<string>, after: Profile) {
    && after.email == before.email && after.language == before.language && after.countryCode == before.countryCode
    && after.displayName
       == if (before.displayName == None || before.displayName == Some("")) && name != None && name != Some("")
          then name else before.displayName
  }

  lemma GreetingKeepsNames(s: State, p: Payload, id: ContactId, t: State, r: CreateResult)
    requires id in s.contacts && Greets(s, p, id, t, r) && r.Saved?
    ensures r.id == id && id in t.contacts
    ensures NamedIfNameless(s.contacts[id].profile, p.profile.displayName, t.contacts[id].profile)
    ensures t.contacts[id].address == if NamesContact(p, s.contacts[id]) then s.contacts[id].address else NumberOf(p)
  {
  }

  /** An inbound message names a contact that has no name, and never renames one; where it names
      nobody it leaves the number in normal form. */
  lemma ReceiveKeepsNames(s: State, p: Payload, t: State, r: CreateResult)
    requires Receives(s, p, t, r) && r.Saved? && s.next !in s.contacts
    ensures r.id in t.contacts
    ensures r.id in s.contacts ==>
              && NamedIfNameless(s.contacts[r.id].profile, p.profile.displayName, t.contacts[r.id].profile)
              && t.contacts[r.id].address
                 == if NamesContact(p, s.contacts[r.id]) then s.contacts[r.id].address else NumberOf(p)
    ensures r.id !in s.contacts ==> t.contacts[r.id].profile == p.profile
  {
    if id :| Matches(s.contacts, id, p) && Greets(s, p, id, t, r) {
      GreetingKeepsNames(s, p, id, t, r);
    }
  }

  /** The checks before the table is read: the channel exists, is not deleted and belongs to the
      account and the organization of the request, and the address has digits to dial. */
  lemma PrecheckExactly(channels: map<ChannelId, Channel>, p: Payload)
    ensures Precheck(channels, p) == None <==>
              && p.channel in channels && channels[p.channel] == Channel(p.account, p.organization, false)
              && Digits(p.address) != "" && Digits(p.address) != "00"
    ensures Precheck(channels, p) == Some(InvalidChannel) <==>
              p.channel !in channels || channels[p.channel].account != p.account || channels[p.channel].deleted
    ensures Precheck(channels, p) == Some(ChannelOrganizationMismatch) <==>
              && p.channel in channels && channels[p.channel].account == p.account && !channels[p.channel].deleted
              && channels[p.channel].organization != p.organization
  {
    EmptyExactly(p.address, CodeOf(p));
  }

  // ----- when a call is refused

  /** The number is its own normal form under the default code. */
  predicate IsNormal(number: string) {
    NormalizeWhatsappPhone(number, DEFAULT_COUNTRY_CODE) == number
  }

  lemma RequestedIsNormal(p: Payload)
    requires DefaultCode(p)
    ensures IsNormal(Requested(p).number)
  {
    NormalizeTwiceDefault(p.address, CodeOf(p));
    DefaultCodeIsDefault(NumberOf(p), CodeOf(p));
  }

  /** A soft-deleted contact of the channel still holds the number. */
  ghost predicate DeletedHolds(contacts: map<ContactId, Contact>, e: Entry) {
    exists k :: k in contacts && contacts[k].deleted && OnChannel(contacts[k], e.organization, e.channel)
                && contacts[k].address == e.number
  }

  predicate IsLiveAt(c: Contact, e: Entry) {
    LiveOn(c, e.organization, e.channel) && c.address == e.number
  }

  /** A live holder of the requested number is the match itself, so only a deleted one is in the
      way. */
  lemma TakenMeansDeleted(contacts: map<ContactId, Contact>, id: ContactId, p: Payload)
    requires Injective(contacts, EntryOf) && DefaultCode(p) && NumberOf(p) != ""
    requires id in contacts ==> EntryOf(contacts[id]) == Some(Requested(p))
    requires id !in contacts ==> forall k :: k in contacts ==> EntryOf(contacts[k]) != Some(Requested(p))
    ensures Taken(contacts, id, p) <==> DeletedHolds(contacts, Requested(p))
  {
    RequestedIsNormal(p);
    assert forall k :: k in contacts && IsLiveAt(contacts[k], Requested(p)) ==>
      EntryOf(contacts[k]) == Some(Requested(p));
    if DeletedHolds(contacts, Requested(p)) {
      var k :| k in contacts && contacts[k].deleted && OnChannel(contacts[k], p.organization, p.channel)
               && contacts[k].address == NumberOf(p);
      assert k != id;
    }
  }

  /** create_contact saves exactly when its checks pass and no soft-deleted contact of the
      channel holds the number; a number once deleted is refused by the unique constraint. */
  lemma CreateSavedExactly(s: State, p: Payload, t: State, r: CreateResult)
    requires Inv(s) && DefaultCode(p) && Creates(s, p, t, r)
    ensures r.Saved? <==> Precheck(s.channels, p).None? && !DeletedHolds(s.contacts, Requested(p))
    ensures Precheck(s.channels, p).None? && DeletedHolds(s.contacts, Requested(p)) ==> r == Refused(UniqueViolation)
  {
    if Precheck(s.channels, p).None? {
      MatchesAreEntries(s.contacts, p);
      if id :| Matches(s.contacts, id, p) && Updates(s, p, id, t, r) {
        TakenMeansDeleted(s.contacts, id, p);
      } else {
        TakenMeansDeleted(s.contacts, s.next, p);
      }
    }
  }

  lemma DeleteUnbinds(s: State, id: ContactId)
    requires Inv(s)
    ensures Inv(Deleted(s, id))
    ensures Index(Deleted(s, id))
            == if id in s.contacts && EntryOf(s.contacts[id]).Some? then Index(s) - {EntryOf(s.contacts[id]).value}
               else Index(s)
  {
    if id in s.contacts {
      UnbindingUpdatesIndex(s.contacts, EntryOf, id, s.contacts[id].(deleted := true));
    }
  }

  // ----- country codes

  /** Whatever the table holds, no request under this code makes two live contacts of a channel
      share a number. */
  ghost predicate CodeKeepsIndex(code: string) {
    forall s, p, t, r ::
      CodeOf(p) == code && 3 <= |p.address| <= 120 && Inv(s) && Creates(s, p, t, r) ==> Inv(t)
  }

  /** Country codes are two characters at most; the index is safe from a code exactly when the
      code stands for the default one, as every code without digits does. */
  lemma CodeKeepsIndexExactly(code: string)
    requires |code| <= 2
    ensures CodeKeepsIndex(code) <==> CountryDigits(code) == DEFAULT_COUNTRY_CODE
  {
    if CountryDigits(code) == DEFAULT_COUNTRY_CODE {
      forall s, p, t, r | CodeOf(p) == code && 3 <= |p.address| <= 120 && Inv(s) && Creates(s, p, t, r) ensures Inv(t) {
        CreateRefinesUpsert(s, p, t, r);
      }
    } else {
      NumericCodeDuplicates(code);
    }
  }

  lemma {:induction false} DigitsAtMost(s: string)
    ensures |Digits(s)| <= |s|
  {
    if s != "" {
      DigitsAtMost(s[1..]);
    }
  }

  /** Under a numeric code `cc` the number "001" is stored as `n`, which the default code reads as
      `m`; the scan under `cc` does not recognise `m` as the same number. */
  lemma NumericCodeMisreads(code: string) returns (n: string, m: string)
    requires |code| <= 2 && CountryDigits(code) != DEFAULT_COUNTRY_CODE
    ensures n == NormalizeWhatsappPhone("001", code) && n != "" && n != m
    ensures NormalizeWhatsappPhone(n, DEFAULT_COUNTRY_CODE) == m == NormalizeWhatsappPhone(m, DEFAULT_COUNTRY_CODE)
    ensures m != ""
    ensures NormalizeWhatsappPhone(n, code) == n && NormalizeWhatsappPhone(m, code) != n
  {
    n := NormalizeWhatsappPhone("001", code);
    DigitsAtMost(code);
    DigitsOfDigits("001");
    NormalOfDigits("001", code);
    assert DropExit("001") == "1";
    ShortCodeMisreads(CountryDigits(code));
    NormalFormIsDigits("001", code);
    NormalOfDigits(n, code);
    DefaultIsDigits();
    DigitsOfDigits(DEFAULT_COUNTRY_CODE);
    NormalOfDigits(n, DEFAULT_COUNTRY_CODE);
    m := NormalizeWhatsappPhone(n, DEFAULT_COUNTRY_CODE);
    NormalFormIsDigits(n, DEFAULT_COUNTRY_CODE);
    NormalOfDigits(m, code);
    NormalOfDigits(m, DEFAULT_COUNTRY_CODE);
  }

  lemma NormalOfDigits(s: string, code: string)
    requires s != "" && Digits(s) == s
    ensures NormalizeWhatsappPhone(s, code) == Localise(DropExit(s), CountryDigits(code))
  {
  }

  /** What the default code makes of a number kept in digits. */
  function ReadAsDefault(n: string): string {
    Localise(DropExit(n), DEFAULT_COUNTRY_CODE)
  }

  lemma ShortCodeMisreads(cc: string)
    requires 1 <= |cc| <= 2
    ensures var n := Localise("1", cc);
            var m := ReadAsDefault(n);
            && 1 <= |n| <= 3 && Localise(DropExit(n), cc) == n
            && |m| >= 4 && ReadAsDefault(m) == m
            && |Localise(DropExit(m), cc)| >= 4
  {
    var n := Localise("1", cc);
    assert StripZeros("1") == "1";
    assert n == if cc == "1" then "1" else cc + "1";
    StripZerosLeads(DropExit(n));
    assert n[|n| - 1] == '1';
    var m := ReadAsDefault(n);
    LocalisedIsStable(DropExit(n), DEFAULT_COUNTRY_CODE);
    assert m[0] == '9';
  }

  /** Such a code makes a second contact for a number the channel already has. */
  lemma NumericCodeDuplicates(code: string)
    requires |code| <= 2 && CountryDigits(code) != DEFAULT_COUNTRY_CODE
    ensures !CodeKeepsIndex(code)
  {
    var n, m := NumericCodeMisreads(code);
    MisreadDuplicates(code, "001", n, m);
  }

  lemma MisreadDuplicates(code: string, raw: string, n: string, m: string)
    requires 3 <= |raw| <= 120 && n == NormalizeWhatsappPhone(raw, code) && n != "" && n != m && m != ""
    requires NormalizeWhatsappPhone(n, DEFAULT_COUNTRY_CODE) == m == NormalizeWhatsappPhone(m, DEFAULT_COUNTRY_CODE)
    requires NormalizeWhatsappPhone(n, code) == n && NormalizeWhatsappPhone(m, code) != n
    ensures !CodeKeepsIndex(code)
  {
    var p := Payload(0, 0, 0, raw, Profile(None, None, None, Some(code)));
    var s, t := Duplication(p, n, m);
    OnlyContact(s, 0);
    TwinsBreakInv(t, n, m);
    OneCallBreaksIt(s, p, t, Saved(1));
  }

  lemma OneCallBreaksIt(s: State, p: Payload, t: State, r: CreateResult)
    requires 3 <= |p.address| <= 120 && Inv(s) && Creates(s, p, t, r) && !Inv(t)
    ensures !CodeKeepsIndex(CodeOf(p))
  {
  }

  lemma OnlyContact(s: State, id: ContactId)
    requires s.contacts.Keys == {id} && id < s.next
    ensures Inv(s)
  {
  }

  /** A table holding `m`, and the same table after `n` was created beside it. */
  lemma Duplication(p: Payload, n: string, m: string) returns (s: State, t: State)
    requires p.account == 0 && p.organization == 0 && p.channel == 0
    requires NumberOf(p) == n && n != "" && n != m
    requires NormalizeWhatsappPhone(n, CodeOf(p)) == n != NormalizeWhatsappPhone(m, CodeOf(p))
    ensures s.contacts.Keys == {0} && s.next == 1 && Creates(s, p, t, Saved(1))
    ensures t.contacts.Keys == {0, 1} && !t.contacts[0].deleted && !t.contacts[1].deleted
    ensures OnChannel(t.contacts[0], t.contacts[1].organization, t.contacts[1].channel)
    ensures t.contacts[0].address == m && t.contacts[1].address == n
  {
    s := State(map[0 := Channel(0, 0, false)], map[0 := Contact(0, 0, m, false, p.profile)], 1);
    t := s.(contacts := s.contacts[1 := NewContact(p)], next := 2);
    assert SoughtNumber(p) == n;
    assert forall id :: !Matches(s.contacts, id, p);
  }

  lemma TwinsBreakInv(t: State, n: string, m: string)
    requires m != ""
    requires NormalizeWhatsappPhone(n, DEFAULT_COUNTRY_CODE) == m == NormalizeWhatsappPhone(m, DEFAULT_COUNTRY_CODE)
    requires 0 in t.contacts && 1 in t.contacts && !t.contacts[0].deleted && !t.contacts[1].deleted
    requires OnChannel(t.contacts[0], t.contacts[1].organization, t.contacts[1].channel)
    requires t.contacts[0].address == m && t.contacts[1].address == n
    ensures !Inv(t)
  {
    assert EntryOf(t.contacts[0]) == EntryOf(t.contacts[1]);
  }

  // ----- runs

  /** The import of one row with a normalised phone: found by its address alone. */
  ghost predicate ImportsRow(s: State, e: Entry, profile: Profile, t: State, r: CreateResult) {
    if exists id :: AtAddress(s.contacts, id, e) then
      exists id :: AtAddress(s.contacts, id, e) && Overlays(s, id, profile, t, r)
    else if DeletedHolds(s.contacts, e) then t == s && r == Refused(UniqueViolation)
    else
      && r == Saved(s.next)
      && t == s.(contacts := s.contacts[s.next := Contact(e.organization, e.channel, e.number, false, profile)],
                 next := s.next + 1)
  }

  ghost predicate AtAddress(contacts: map<ContactId, Contact>, id: ContactId, e: Entry) {
    id in contacts && IsLiveAt(contacts[id], e)
  }

  ghost predicate Overlays(s: State, id: ContactId, profile: Profile, t: State, r: CreateResult)
    requires id in s.contacts
  {
    var c := s.contacts[id];
    r == Saved(id) && t == s.(contacts := s.contacts[id := c.(profile := Overlay(c.profile, profile))])
  }

  datatype Step =
    | Create(payload: Payload, result: CreateResult)
    | Receive(organization: OrganizationId, channel: ChannelId, number: string, name: Option<string>,
              result: CreateResult)
    | Import(entry: Entry, profile: Profile, result: CreateResult)
    | Delete(id: ContactId)

  ghost predicate Takes(s: State, step: Step, t: State) {
    match step
    case Create(payload, result) => DefaultCode(payload) && Creates(s, payload, t, result)
    case Receive(organization, channel, number, name, result) =>
      Receives(s, Sender(organization, channel, number, name), t, result)
    case Import(entry, profile, result) =>
      entry.number != "" && IsNormal(entry.number) && ImportsRow(s, entry, profile, t, result)
    case Delete(id) => t == Deleted(s, id)
  }

  ghost predicate IsRun(states: seq<State>, steps: seq<Step>) {
    |states| == |steps| + 1 && forall i :: 0 <= i < |steps| ==> Takes(states[i], steps[i], states[i + 1])
  }

  /** Every stored address is in normal form. */
  ghost predicate Normal(s: State) {
    forall id :: id in s.contacts ==> IsNormal(s.contacts[id].address)
  }

  /** An import compares addresses as they are stored, so a run with imports has to start from
      normal forms. */
  ghost predicate Importable(s: State, steps: seq<Step>) {
    Normal(s) || forall i :: 0 <= i < |steps| ==> !steps[i].Import?
  }

  /** What a step other than a deletion asks for. */
  function Asked(step: Step): Entry
    requires !step.Delete?
  {
    match step
    case Create(payload, _) => Requested(payload)
    case Receive(organization, channel, number, name, _) => Requested(Sender(organization, channel, number, name))
    case Import(entry, _, _) => entry
  }

  lemma AskedIsNormal(s: State, step: Step, t: State)
    requires !step.Delete? && Takes(s, step, t)
    ensures IsNormal(Asked(step).number)
  {
    match step
    case Create(p, _) => RequestedIsNormal(p);
    case Receive(organization, channel, number, name, _) =>
      NormalizeTwiceDefault(number, DEFAULT_COUNTRY_CODE);
    case Import(_, _, _) =>
  }

  lemma SenderHasDefaultCode(organization: OrganizationId, channel: ChannelId, number: string, name: Option<string>)
    ensures DefaultCode(Sender(organization, channel, number, name))
  {
    DefaultIsDigits();
    DigitsOfDigits(DEFAULT_COUNTRY_CODE);
  }

  lemma AddressesAreEntries(s: State, e: Entry)
    requires Normal(s) && e.number != ""
    ensures forall k :: AtAddress(s.contacts, k, e) <==> k in s.contacts && EntryOf(s.contacts[k]) == Some(e)
  {
    forall k ensures AtAddress(s.contacts, k, e) <==> k in s.contacts && EntryOf(s.contacts[k]) == Some(e) {
      if k in s.contacts {
        assert IsNormal(s.contacts[k].address);
      }
    }
  }

  lemma ImportRefinesUpsert(s: State, e: Entry, profile: Profile, t: State, r: CreateResult)
    requires Inv(s) && Normal(s) && e.number != "" && IsNormal(e.number) && ImportsRow(s, e, profile, t, r)
    ensures Upserts(s, e, t, r) && Tracks(s, e, t)
  {
    if r.Saved? {
      AddressesAreEntries(s, e);
      assert EntryOf(t.contacts[r.id]) == Some(e);
      WritingUpserts(s, e, t, r.id);
      WritingTracks(s, e, t, r.id);
    }
  }

  lemma StepRefinesUpsert(s: State, step: Step, t: State)
    requires Inv(s) && !step.Delete? && Takes(s, step, t) && (step.Import? ==> Normal(s))
    ensures Upserts(s, Asked(step), t, step.result) && Tracks(s, Asked(step), t)
  {
    match step
    case Create(p, r) => CreateRefinesUpsert(s, p, t, r);
    case Receive(organization, channel, number, name, r) =>
      SenderHasDefaultCode(organization, channel, number, name);
      ReceiveRefinesUpsert(s, Sender(organization, channel, number, name), t, r);
    case Import(e, profile, r) => ImportRefinesUpsert(s, e, profile, t, r);
  }

  lemma StepKeepsNormal(s: State, step: Step, t: State)
    requires Inv(s) && Normal(s) && Takes(s, step, t)
    ensures Normal(t)
  {
    if !step.Delete? {
      AskedIsNormal(s, step, t);
      StepRefinesUpsert(s, step, t);
      TrackingKeepsNormal(s, Asked(step), t);
    }
  }

  lemma TrackingKeepsNormal(s: State, e: Entry, t: State)
    requires Normal(s) && IsNormal(e.number) && Tracks(s, e, t)
    ensures Normal(t)
  {
    forall k | k in t.contacts ensures IsNormal(t.contacts[k].address) {
      if k in s.contacts {
        assert IsNormal(s.contacts[k].address);
      }
    }
  }

  lemma StepKeepsInv(s: State, step: Step, t: State)
    requires Inv(s) && Takes(s, step, t) && (step.Import? ==> Normal(s))
    ensures Inv(t) && t.channels == s.channels
  {
    match step
    case Delete(id) => DeleteUnbinds(s, id);
    case _ => StepRefinesUpsert(s, step, t);
  }

  lemma StepKeepsIndex(s: State, step: Step, t: State, e: Entry)
    requires Inv(s) && Takes(s, step, t) && (step.Import? ==> Normal(s))
    ensures Inv(t)
    ensures e in Index(s) && step != Delete(Index(s)[e]) ==> Binds(t, e, Index(s)[e])
  {
    match step
    case Delete(id) => DeleteUnbinds(s, id); IndexedWhere(s, e);
    case _ => StepRefinesUpsert(s, step, t);
  }

  lemma RunContinues(states: seq<State>, steps: seq<Step>)
    requires IsRun(states, steps) && steps != [] && Inv(states[0]) && Importable(states[0], steps)
    ensures IsRun(states[1..], steps[1..]) && Importable(states[1], steps[1..])
    ensures steps[0].Import? ==> Normal(states[0])
    ensures Inv(states[1]) && states[1].channels == states[0].channels
  {
    if Normal(states[0]) {
      StepKeepsNormal(states[0], steps[0], states[1]);
    }
    StepKeepsInv(states[0], steps[0], states[1]);
  }

  /** In every run the live contacts of a channel keep pairwise distinct numbers. */
  lemma {:induction false} RunKeepsInv(states: seq<State>, steps: seq<Step>)
    requires IsRun(states, steps) && Inv(states[0]) && Importable(states[0], steps)
    ensures forall i :: 0 <= i < |states| ==> Inv(states[i])
    decreases |steps|
  {
    if steps != [] {
      RunContinues(states, steps);
      RunKeepsInv(states[1..], steps[1..]);
      forall i | 0 <= i < |states| ensures Inv(states[i]) {
        assert i > 0 ==> states[i] == states[1..][i - 1];
      }
    }
  }

  ghost predicate Binds(s: State, e: Entry, id: ContactId) {
    Inv(s) && e in Index(s) && Index(s)[e] == id
  }

  /** A bound entry stays bound to the same contact until that contact is deleted. */
  lemma {:induction false} RunKeepsIndex(states: seq<State>, steps: seq<Step>, e: Entry, id: ContactId)
    requires IsRun(states, steps) && Binds(states[0], e, id) && Importable(states[0], steps)
    requires Delete(id) !in steps
    ensures Binds(states[|steps|], e, id)
    decreases |steps|
  {
    if steps != [] {
      RunContinues(states, steps);
      assert steps[0] in steps && forall x :: x in steps[1..] ==> x in steps;
      StepKeepsIndex(states[0], steps[0], states[1], e);
      RunKeepsIndex(states[1..], steps[1..], e, id);
    }
  }

  // ----- one number over a run

  /** The live contact stores the entry's number itself, and no deleted one does. */
  ghost predicate Keeps(s: State, id: ContactId, e: Entry) {
    AtAddress(s.contacts, id, e) && !DeletedHolds(s.contacts, e)
  }

  lemma TrackingKeepsNumber(s: State, id: ContactId, e: Entry, asked: Entry, t: State)
    requires IsNormal(e.number) && e.number != "" && Tracks(s, asked, t)
    ensures Keeps(s, id, e) ==> Keeps(t, id, e)
    ensures DeletedHolds(s.contacts, e) ==> DeletedHolds(t.contacts, e)
  {
    assert forall k :: k in s.contacts && s.contacts[k].deleted ==> EntryOf(s.contacts[k]).None?;
    if Keeps(s, id, e) {
      assert EntryOf(s.contacts[id]) == Some(e);
    }
    if DeletedHolds(s.contacts, e) {
      var k :| k in s.contacts && s.contacts[k].deleted && OnChannel(s.contacts[k], e.organization, e.channel)
               && s.contacts[k].address == e.number;
      assert t.contacts[k].deleted && t.contacts[k].address == e.number;
    }
  }

  lemma DeletionKeepsNumber(s: State, id: ContactId, e: Entry, gone: ContactId)
    requires Inv(s) && IsNormal(e.number) && e.number != ""
    ensures Keeps(s, id, e) ==>
              if gone == id then DeletedHolds(Deleted(s, gone).contacts, e) else Keeps(Deleted(s, gone), id, e)
    ensures DeletedHolds(s.contacts, e) ==> DeletedHolds(Deleted(s, gone).contacts, e)
  {
    var t := Deleted(s, gone);
    assert forall k :: AtAddress(s.contacts, k, e) ==> EntryOf(s.contacts[k]) == Some(e);
    if Keeps(s, id, e) && gone == id {
      assert t.contacts[id].deleted && t.contacts[id].address == e.number;
    }
    if k :| k in s.contacts && s.contacts[k].deleted && OnChannel(s.contacts[k], e.organization, e.channel)
            && s.contacts[k].address == e.number {
      assert t.contacts[k].deleted && t.contacts[k].address == e.number;
    }
  }

  lemma StepKeepsNumber(s: State, step: Step, t: State, id: ContactId, e: Entry)
    requires Inv(s) && Takes(s, step, t) && (step.Import? ==> Normal(s)) && IsNormal(e.number) && e.number != ""
    ensures Inv(t) && t.channels == s.channels
    ensures Keeps(s, id, e) ==> if step == Delete(id) then DeletedHolds(t.contacts, e) else Keeps(t, id, e)
    ensures DeletedHolds(s.contacts, e) ==> DeletedHolds(t.contacts, e)
  {
    match step
    case Delete(gone) =>
      DeleteUnbinds(s, gone);
      DeletionKeepsNumber(s, id, e, gone);
    case _ =>
      StepRefinesUpsert(s, step, t);
      TrackingKeepsNumber(s, id, e, Asked(step), t);
  }

  /** The number of a deleted contact stays barred. */
  lemma {:induction false} RunBarsNumber(states: seq<State>, steps: seq<Step>, e: Entry)
    requires IsRun(states, steps) && Inv(states[0]) && Importable(states[0], steps)
    requires IsNormal(e.number) && e.number != "" && DeletedHolds(states[0].contacts, e)
    ensures DeletedHolds(states[|steps|].contacts, e)
    decreases |steps|
  {
    if steps != [] {
      RunContinues(states, steps);
      StepKeepsNumber(states[0], steps[0], states[1], 0, e);
      RunBarsNumber(states[1..], steps[1..], e);
    }
  }

  lemma HeadOrTail<T>(s: seq<T>, x: T)
    requires s != []
    ensures x in s <==> s[0] == x || x in s[1..]
  {
    assert s == [s[0]] + s[1..];
  }

  /** A stored number stays with its contact until that is deleted, and is barred from then on. */
  lemma {:induction false} RunKeepsNumber(states: seq<State>, steps: seq<Step>, id: ContactId, e: Entry)
    requires IsRun(states, steps) && Inv(states[0]) && Importable(states[0], steps)
    requires IsNormal(e.number) && e.number != "" && Keeps(states[0], id, e)
    ensures if Delete(id) in steps then DeletedHolds(states[|steps|].contacts, e) else Keeps(states[|steps|], id, e)
    decreases |steps|
  {
    if steps != [] {
      RunContinues(states, steps);
      StepKeepsNumber(states[0], steps[0], states[1], id, e);
      HeadOrTail(steps, Delete(id));
      if steps[0] == Delete(id) {
        RunBarsNumber(states[1..], steps[1..], e);
      } else {
        RunKeepsNumber(states[1..], steps[1..], id, e);
      }
    }
  }

  lemma {:induction false} RunKeepsChannels(states: seq<State>, steps: seq<Step>)
    requires IsRun(states, steps) && Inv(states[0]) && Importable(states[0], steps)
    ensures Inv(states[|steps|]) && states[|steps|].channels == states[0].channels
    decreases |steps|
  {
    if steps != [] {
      RunContinues(states, steps);
      RunKeepsChannels(states[1..], steps[1..]);
    }
  }

  /** A call, a run, and another call; both pass their checks, and no deleted contact holds the
      number of the first. */
  ghost predicate CreatesTwice(s: State, p: Payload, first: CreateResult, states: seq<State>, steps: seq<Step>,
                               q: Payload, t: State, second: CreateResult)
  {
    && Inv(s) && DefaultCode(p) && DefaultCode(q)
    && Precheck(s.channels, p).None? && Precheck(s.channels, q).None?
    && !DeletedHolds(s.contacts, Requested(p))
    && IsRun(states, steps) && Importable(states[0], steps)
    && Creates(s, p, states[0], first) && Creates(states[|steps|], q, t, second)
  }

  /** Two calls with matching numbers that pass their checks, for a number no deleted contact
      holds: the first saves; the second returns the same contact, unless that was deleted in
      between, and then it is refused. */
  lemma SameNumberSameContact(s: State, p: Payload, first: CreateResult, states: seq<State>, steps: seq<Step>,
                              q: Payload, t: State, second: CreateResult)
    requires CreatesTwice(s, p, first, states, steps, q, t, second) && Requested(p) == Requested(q)
    ensures first.Saved?
    ensures second == if Delete(first.id) in steps then Refused(UniqueViolation) else Saved(first.id)
  {
    var e, last := Requested(p), states[|steps|];
    RequestedIsNormal(p);
    CreateSavedExactly(s, p, states[0], first);
    CreateRefinesUpsert(s, p, states[0], first);
    CreatedKeeps(s, p, states[0], first);
    RunKeepsChannels(states, steps);
    RunKeepsNumber(states, steps, first.id, e);
    CreateSavedExactly(last, q, t, second);
    CreateRefinesUpsert(last, q, t, second);
    if Keeps(last, first.id, e) {
      assert EntryOf(last.contacts[first.id]) == Some(e);
      assert Index(last)[e] == first.id;
    }
  }

  lemma CreatedKeeps(s: State, p: Payload, t: State, r: CreateResult)
    requires Inv(s) && DefaultCode(p) && Creates(s, p, t, r) && r.Saved?
    ensures Keeps(t, r.id, Requested(p))
  {
    CreateSavedExactly(s, p, t, r);
    CreateWrites(s, p, t, r);
    WrittenKeeps(s, Requested(p), t, r.id);
  }

  lemma WrittenKeeps(s: State, e: Entry, t: State, id: ContactId)
    requires Writes(s, e, t, id) && t.contacts[id].address == e.number && !DeletedHolds(s.contacts, e)
    ensures Keeps(t, id, e)
  {
  }

  /** The input spells the local Kuwaiti number `d`. */
  predicate SpellsKuwaiti(value: string, d: string) {
    IsLocal(d, DEFAULT_COUNTRY_CODE) && Spells(value, d, DEFAULT_COUNTRY_CODE)
  }

  lemma SpelledNumber(p: Payload, d: string)
    requires DefaultCode(p) && SpellsKuwaiti(p.address, d)
    ensures Requested(p) == Entry(p.organization, p.channel, DEFAULT_COUNTRY_CODE + d)
  {
    SpellingsAgree(p.address, CodeOf(p), d);
  }

  /** Creating under any two spellings of one Kuwaiti number (0501234567, +965 50 123 4567, ...)
      gives one contact. */
  lemma SpellingsShareContact(s: State, p: Payload, first: CreateResult, states: seq<State>, steps: seq<Step>,
                              q: Payload, t: State, second: CreateResult, d: string)
    requires CreatesTwice(s, p, first, states, steps, q, t, second)
    requires p.organization == q.organization && p.channel == q.channel
    requires SpellsKuwaiti(p.address, d) && SpellsKuwaiti(q.address, d)
    ensures first.Saved? && Keeps(states[0], first.id, Entry(p.organization, p.channel, DEFAULT_COUNTRY_CODE + d))
    ensures second == if Delete(first.id) in steps then Refused(UniqueViolation) else Saved(first.id)
  {
    SpelledNumber(p, d);
    SpelledNumber(q, d);
    SameNumberSameContact(s, p, first, states, steps, q, t, second);
    CreatedKeeps(s, p, states[0], first);
  }

  /** Creating, deleting and creating again: the second call is refused. */
  lemma RecreationIsRefused(s: State, p: Payload, t: State, r: CreateResult, u: State, second: CreateResult)
    requires Inv(s) && DefaultCode(p) && Creates(s, p, t, r) && r.Saved?
    requires Creates(Deleted(t, r.id), p, u, second)
    ensures second == Refused(UniqueViolation) && u == Deleted(t, r.id)
  {
    RequestedIsNormal(p);
    CreateSavedExactly(s, p, t, r);
    CreateRefinesUpsert(s, p, t, r);
    CreatedKeeps(s, p, t, r);
    DeleteUnbinds(t, r.id);
    DeletionKeepsNumber(t, r.id, Requested(p), r.id);
    CreateSavedExactly(Deleted(t, r.id), p, u, second);
  }

  /** Such a history starts from an empty table with any request that passes its checks. */
  lemma RecreationOccurs(channels: map<ChannelId, Channel>, p: Payload) returns (t: State, u: State)
    requires DefaultCode(p) && Precheck(channels, p).None?
    ensures Creates(State(channels, map[], 0), p, t, Saved(0))
    ensures Creates(Deleted(t, 0), p, u, Refused(UniqueViolation))
  {
    var s := State(channels, map[], 0);
    t := State(channels, map[0 := NewContact(p)], 1);
    u := Deleted(t, 0);
    assert forall id :: !Matches(s.contacts, id, p) && !Matches(u.contacts, id, p);
    assert u.contacts[0].address == NumberOf(p);
    assert Taken(u.contacts, 1, p);
  }

  /** A number a deleted contact holds is refused in every later call. */
  lemma DeletedNumberIsBarred(states: seq<State>, steps: seq<Step>, p: Payload, t: State, r: CreateResult)
    requires IsRun(states, steps) && Inv(states[0]) && Importable(states[0], steps)
    requires DefaultCode(p) && DeletedHolds(states[0].contacts, Requested(p))
    requires Creates(states[|steps|], p, t, r)
    ensures r.Refused? && t == states[|steps|]
  {
    var last := states[|steps|];
    RunKeepsChannels(states, steps);
    if Precheck(last.channels, p).None? {
      RequestedIsNormal(p);
      RunBarsNumber(states, steps, Requested(p));
      CreateSavedExactly(last, p, t, r);
    }
  }
}
