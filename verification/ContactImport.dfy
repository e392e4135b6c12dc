/** Importing contact rows into one channel against an in-memory index of its addresses. */
module ContactImport {
  import opened Common
  import opened PhoneNormalize
  import opened Contacts

  /** A row after cell lookup: `phone` is "" when the cell is blank, `country` is upper-cased and
      "KW" when blank, `profile` holds the cells that were given. */
  datatype Row = Row(phone: string, country: string, profile: Profile)

  datatype RowOutcome = Skipped | Invalid | Existing(id: ContactId) | Created(id: ContactId) | Violation

  datatype ImportResult =
    | Imported(created: nat, existing: nat, skipped: nat, invalid: nat, contactIds: seq<ContactId>)
    | Failed(error: CreateError)

  /** A contact of the channel the import goes to; no other channel's rows are read or written. */
  datatype ChannelContact = ChannelContact(address: string, deleted: bool, profile: Profile)

  type Table = map<ContactId, ChannelContact>

  datatype PhoneCell = Blank | Unusable | Usable(phone: string)

  /** A row as the loop reads it. */
  datatype Entrant = Entrant(cell: PhoneCell, profile: Profile)

  function Read(row: Row): Entrant {
    var phone := if row.phone == "" then "" else NormalizeWhatsappPhone(row.phone, CountryDial(row.country));
    Entrant(if row.phone == "" then Blank else if phone == "" then Unusable else Usable(phone), row.profile)
  }

  function ReadAll(rows: seq<Row>): (entrants: seq<Entrant>)
    ensures |entrants| == |rows| && forall i :: 0 <= i < |rows| ==> entrants[i] == Read(rows[i])
  {
    seq(|rows|, i requires 0 <= i < |rows| => Read(rows[i]))
  }

  // ----- the index

  /** The unique constraint on addresses, deleted contacts included. */
  ghost predicate UniqueAddresses(t: Table) {
    forall a, b :: a in t && b in t && t[a].address == t[b].address ==> a == b
  }

  /** The address-to-id map of the channel's live contacts. */
  ghost function AddressIndex(t: Table): map<string, ContactId>
    requires UniqueAddresses(t)
  {
    map id | id in t && !t[id].deleted :: t[id].address := id
  }

  /** A soft-deleted contact of the channel still holds the address. */
  ghost predicate HeldByDeleted(t: Table, address: string) {
    exists k :: k in t && t[k].deleted && t[k].address == address
  }

  lemma AddressHolders(t: Table, phone: string)
    requires UniqueAddresses(t)
    ensures phone in AddressIndex(t) <==> exists k :: k in t && !t[k].deleted && t[k].address == phone
    ensures !(phone in AddressIndex(t) && HeldByDeleted(t, phone))
  {
    if k :| k in t && !t[k].deleted && t[k].address == phone {
      assert t[k].address in AddressIndex(t);
    }
    if phone in AddressIndex(t) {
      assert t[AddressIndex(t)[phone]].address == phone;
    }
  }

  lemma IndexAfterInsert(t: Table, id: ContactId, c: ChannelContact)
    requires UniqueAddresses(t) && id !in t && !c.deleted
    requires forall k :: k in t ==> t[k].address != c.address
    ensures UniqueAddresses(t[id := c])
    ensures AddressIndex(t[id := c]) == AddressIndex(t)[c.address := id]
  {
    var after := t[id := c];
    assert after[id].address in AddressIndex(after);
    forall a | a in AddressIndex(t) ensures a in AddressIndex(after) {
      assert after[AddressIndex(t)[a]].address == a;
    }
  }

  lemma IndexAfterOverlay(t: Table, id: ContactId, profile: Profile)
    requires UniqueAddresses(t) && id in t
    ensures UniqueAddresses(t[id := t[id].(profile := profile)])
    ensures AddressIndex(t[id := t[id].(profile := profile)]) == AddressIndex(t)
  {
    var after := t[id := t[id].(profile := profile)];
    forall a | a in AddressIndex(t) ensures a in AddressIndex(after) {
      assert after[AddressIndex(t)[a]].address == a;
    }
  }

  // ----- one row

  /** A row with a usable phone; `next` is the id the database would give a new contact. A
      violation is the database refusing the insert. */
  ghost function ImportPhone(t: Table, next: nat, phone: string, profile: Profile): (Table, RowOutcome)
    requires UniqueAddresses(t)
  {
    if phone in AddressIndex(t) then
      var id := AddressIndex(t)[phone];
      (t[id := t[id].(profile := Overlay(t[id].profile, profile))], Existing(id))
    else if HeldByDeleted(t, phone) then (t, Violation)
    else (t[next := ChannelContact(phone, false, profile)], Created(next))
  }

  /** A usable row finds its phone bound, or binds it to a new contact. */
  ghost predicate Binds<K>(index: map<K, ContactId>, after: map<K, ContactId>, phone: K, outcome: RowOutcome) {
    && (if phone in index then outcome == Existing(index[phone]) else outcome.Created?)
    && after == index[phone := outcome.id]
  }

  ghost predicate Below(t: Table, next: nat) {
    forall id :: id in t ==> id < next
  }

  /** A usable row is refused exactly when a deleted contact holds its phone; otherwise it binds
      the phone in the index. Deleted contacts are left alone either way. */
  lemma ImportPhoneBinds(t: Table, next: nat, phone: string, profile: Profile)
    requires UniqueAddresses(t) && Below(t, next)
    ensures var (t1, outcome) := ImportPhone(t, next, phone, profile);
            && UniqueAddresses(t1) && Below(t1, next + 1)
            && (outcome == Violation <==> HeldByDeleted(t, phone))
            && (if outcome == Violation then t1 == t else Binds(AddressIndex(t), AddressIndex(t1), phone, outcome))
  {
    AddressHolders(t, phone);
    if phone in AddressIndex(t) {
      IndexAfterOverlay(t, AddressIndex(t)[phone], Overlay(t[AddressIndex(t)[phone]].profile, profile));
    } else if !HeldByDeleted(t, phone) {
      IndexAfterInsert(t, next, ChannelContact(phone, false, profile));
    }
  }

  lemma ImportPhoneKeepsDeleted(t: Table, next: nat, phone: string, profile: Profile, other: string)
    requires UniqueAddresses(t) && Below(t, next)
    ensures HeldByDeleted(ImportPhone(t, next, phone, profile).0, other) <==> HeldByDeleted(t, other)
  {
    var t1 := ImportPhone(t, next, phone, profile).0;
    if k :| k in t && t[k].deleted && t[k].address == other {
      assert k in t1 && t1[k].deleted && t1[k].address == other;
    }
    if k :| k in t1 && t1[k].deleted && t1[k].address == other {
      assert k in t && t[k].deleted && t[k].address == other;
    }
  }

  // ----- the whole import

  /** The state of the loop: the table, the next id, and what became of the rows so far. */
  datatype Progress = Progress(table: Table, next: nat, outcomes: seq<RowOutcome>) {
    ghost predicate Valid() {
      UniqueAddresses(table) && Below(table, next)
    }
  }

  /** One turn of the loop. */
  ghost function ImportOne(p: Progress, e: Entrant): Progress
    requires p.Valid()
  {
    match e.cell
    case Blank => p.(outcomes := p.outcomes + [Skipped])
    case Unusable => p.(outcomes := p.outcomes + [Invalid])
    case Usable(phone) =>
      var (t1, outcome) := ImportPhone(p.table, p.next, phone, e.profile);
      Progress(t1, p.next + 1, p.outcomes + [outcome])
  }

  lemma ImportOneKeepsValid(p: Progress, e: Entrant)
    requires p.Valid()
    ensures ImportOne(p, e).Valid()
  {
    if e.cell.Usable? {
      ImportPhoneBinds(p.table, p.next, e.cell.phone, e.profile);
    }
  }

  /** The progress after the first n rows, up to and including the first violation. */
  ghost function ImportAll(p: Progress, entrants: seq<Entrant>, n: nat): (r: Progress)
    requires p.Valid() && n <= |entrants|
    ensures r.Valid()
  {
    if n == 0 then p
    else
      var q := ImportAll(p, entrants, n - 1);
      ImportOneKeepsValid(q, entrants[n - 1]);
      if Violation in q.outcomes then q else ImportOne(q, entrants[n - 1])
  }

  /** The progress before the first row, after it, after the second, and so on. */
  ghost function Stages(p: Progress, entrants: seq<Entrant>): (stages: seq<Progress>)
    requires p.Valid()
    ensures AreStages(stages, entrants) && stages[0] == p
    ensures forall n :: 0 <= n <= |entrants| ==> stages[n] == ImportAll(p, entrants, n)
  {
    seq(|entrants| + 1, n requires 0 <= n <= |entrants| => ImportAll(p, entrants, n))
  }

  ghost predicate AreStages(stages: seq<Progress>, entrants: seq<Entrant>) {
    && |stages| == |entrants| + 1 && stages[0].Valid()
    && forall n {:trigger ImportAll(stages[0], entrants, n)} :: 0 <= n <= |entrants| ==>
        stages[n] == ImportAll(stages[0], entrants, n)
  }

  lemma StageFollows(stages: seq<Progress>, entrants: seq<Entrant>, i: nat)
    requires AreStages(stages, entrants) && i < |entrants|
    ensures stages[i].Valid()
    ensures stages[i + 1] == if Violation in stages[i].outcomes then stages[i] else ImportOne(stages[i], entrants[i])
  {
    assert stages[i + 1] == ImportAll(stages[0], entrants, i + 1);
  }

  function PhonesIn(cell: PhoneCell): seq<string> {
    if cell.Usable? then [cell.phone] else []
  }

  /** The addresses of the first n rows that are neither skipped nor invalid, in order. */
  ghost function Phones(entrants: seq<Entrant>, n: nat): seq<string>
    requires n <= |entrants|
  {
    if n == 0 then [] else Phones(entrants, n - 1) + PhonesIn(entrants[n - 1].cell)
  }

  /** The ids of the contacts the rows were imported into, in order. */
  ghost function Touched(outcomes: seq<RowOutcome>): seq<ContactId> {
    if outcomes == [] then []
    else
      var last := outcomes[|outcomes| - 1];
      Touched(outcomes[..|outcomes| - 1]) + (if last.Existing? || last.Created? then [last.id] else [])
  }

  datatype Tally = Tally(created: nat, existing: nat, skipped: nat, invalid: nat)

  ghost function TallyOf(outcomes: seq<RowOutcome>): Tally {
    if outcomes == [] then Tally(0, 0, 0, 0)
    else
      var t := TallyOf(outcomes[..|outcomes| - 1]);
      match outcomes[|outcomes| - 1]
      case Created(_) => t.(created := t.created + 1)
      case Existing(_) => t.(existing := t.existing + 1)
      case Skipped => t.(skipped := t.skipped + 1)
      case Invalid => t.(invalid := t.invalid + 1)
      case Violation => t
  }

  lemma OutcomeAppended(outcomes: seq<RowOutcome>, outcome: RowOutcome)
    ensures Touched(outcomes + [outcome])
            == Touched(outcomes) + if outcome.Existing? || outcome.Created? then [outcome.id] else []
    ensures Violation in outcomes + [outcome] <==> Violation in outcomes || outcome == Violation
    ensures TallyOf(outcomes + [outcome]).created == TallyOf(outcomes).created + if outcome.Created? then 1 else 0
    ensures TallyOf(outcomes + [outcome]).existing == TallyOf(outcomes).existing + if outcome.Existing? then 1 else 0
    ensures TallyOf(outcomes + [outcome]).skipped == TallyOf(outcomes).skipped + if outcome.Skipped? then 1 else 0
    ensures TallyOf(outcomes + [outcome]).invalid == TallyOf(outcomes).invalid + if outcome.Invalid? then 1 else 0
  {
    assert (outcomes + [outcome])[..|outcomes|] == outcomes;
  }

  lemma {:induction false} CountsAddUp(outcomes: seq<RowOutcome>)
    requires Violation !in outcomes
    ensures var t := TallyOf(outcomes); t.created + t.existing + t.skipped + t.invalid == |outcomes|
    ensures |Touched(outcomes)| == TallyOf(outcomes).created + TallyOf(outcomes).existing
  {
    if outcomes != [] {
      assert outcomes[|outcomes| - 1] in outcomes;
      CountsAddUp(outcomes[..|outcomes| - 1]);
    }
  }

  /** Binds each key to the id next to it. */
  ghost predicate BoundTo<K>(index: map<K, ContactId>, keys: seq<K>, ids: seq<ContactId>) {
    |keys| == |ids| && forall j :: 0 <= j < |keys| ==> keys[j] in index && index[keys[j]] == ids[j]
  }

  /** `after` holds the old bindings, and beyond them only bindings of the given keys. */
  ghost predicate Adds<K>(before: map<K, ContactId>, after: map<K, ContactId>, keys: seq<K>) {
    && (forall k :: k in before ==> k in after && after[k] == before[k])
    && (forall k :: k in after ==> k in before || k in keys)
  }

  /** What an import owes the index: every usable phone bound to the contact reported for its
      row, no other address added or rebound, and one contact created per added address. */
  ghost predicate Summary<K>(before: map<K, ContactId>, after: map<K, ContactId>, phones: seq<K>, ids: seq<ContactId>,
                             created: nat) {
    BoundTo(after, phones, ids) && Adds(before, after, phones) && |after| == |before| + created
  }

  lemma BoundToAppends<K>(index: map<K, ContactId>, keys: seq<K>, ids: seq<ContactId>, k: K, id: ContactId)
    requires BoundTo(index, keys, ids) && (k in index ==> index[k] == id)
    ensures BoundTo(index[k := id], keys + [k], ids + [id])
  {
  }

  lemma AddsAppends<K>(before: map<K, ContactId>, index: map<K, ContactId>, keys: seq<K>, k: K, id: ContactId)
    requires Adds(before, index, keys) && (k in index ==> index[k] == id)
    ensures Adds(before, index[k := id], keys + [k])
  {
  }

  lemma BindingSize<K>(index: map<K, ContactId>, k: K, id: ContactId)
    ensures |index[k := id]| == |index| + if k in index then 0 else 1
  {
    assert index[k := id].Keys == index.Keys + {k};
  }

  lemma SummaryBinds<K>(before: map<K, ContactId>, index: map<K, ContactId>, after: map<K, ContactId>,
                        phones: seq<K>, ids: seq<ContactId>, created: nat, phone: K, outcome: RowOutcome)
    requires Summary(before, index, phones, ids, created) && Binds(index, after, phone, outcome)
    ensures Summary(before, after, phones + [phone], ids + [outcome.id], created + if outcome.Created? then 1 else 0)
  {
    BoundToAppends(index, phones, ids, phone, outcome.id);
    AddsAppends(before, index, phones, phone, outcome.id);
    BindingSize(index, phone, outcome.id);
  }

  ghost predicate Imports(p: Progress, phones: seq<string>, q: Progress)
    requires p.Valid() && q.Valid()
  {
    Summary(AddressIndex(p.table), AddressIndex(q.table), phones, Touched(q.outcomes), TallyOf(q.outcomes).created)
  }

  lemma PhoneImports(p: Progress, phones: seq<string>, q: Progress, phone: string, profile: Profile)
    requires p.Valid() && q.Valid() && Imports(p, phones, q)
    requires ImportPhone(q.table, q.next, phone, profile).1 != Violation
    ensures var (t1, outcome) := ImportPhone(q.table, q.next, phone, profile);
            var r := Progress(t1, q.next + 1, q.outcomes + [outcome]);
            r.Valid() && Imports(p, phones + [phone], r)
  {
    var (t1, outcome) := ImportPhone(q.table, q.next, phone, profile);
    ImportPhoneBinds(q.table, q.next, phone, profile);
    OutcomeAppended(q.outcomes, outcome);
    SummaryBinds(AddressIndex(p.table), AddressIndex(q.table), AddressIndex(t1),
                 phones, Touched(q.outcomes), TallyOf(q.outcomes).created, phone, outcome);
  }

  lemma RowImports(p: Progress, phones: seq<string>, q: Progress, e: Entrant)
    requires p.Valid() && q.Valid() && Imports(p, phones, q)
    ensures var r := ImportOne(q, e);
            && r.Valid() && |r.outcomes| == |q.outcomes| + 1
            && (Violation !in r.outcomes ==> Imports(p, phones + PhonesIn(e.cell), r))
  {
    ImportOneKeepsValid(q, e);
    match e.cell
    case Blank => OutcomeAppended(q.outcomes, Skipped); assert phones + [] == phones;
    case Unusable => OutcomeAppended(q.outcomes, Invalid); assert phones + [] == phones;
    case Usable(phone) =>
      var outcome := ImportPhone(q.table, q.next, phone, e.profile).1;
      OutcomeAppended(q.outcomes, outcome);
      if outcome != Violation {
        PhoneImports(p, phones, q, phone, e.profile);
      }
  }

  /** After every number of rows (so after all of them) the index stands as Summary says. */
  lemma {:induction false} ImportSummary(stages: seq<Progress>, entrants: seq<Entrant>, n: nat)
    requires AreStages(stages, entrants) && stages[0].outcomes == [] && n <= |entrants|
    ensures stages[n].Valid()
    ensures Violation !in stages[n].outcomes ==>
              |stages[n].outcomes| == n && Imports(stages[0], Phones(entrants, n), stages[n])
  {
    if n > 0 {
      ImportSummary(stages, entrants, n - 1);
      StageFollows(stages, entrants, n - 1);
      RowKeepsViolations(stages[n - 1], entrants[n - 1]);
      if Violation !in stages[n - 1].outcomes {
        RowImports(stages[0], Phones(entrants, n - 1), stages[n - 1], entrants[n - 1]);
      }
    }
  }

  lemma RowKeepsViolations(p: Progress, e: Entrant)
    requires p.Valid()
    ensures ImportOne(p, e).Valid()
    ensures Violation in p.outcomes ==> Violation in ImportOne(p, e).outcomes
  {
    ImportOneKeepsValid(p, e);
  }

  lemma RowKeepsDeleted(p: Progress, e: Entrant, phone: string)
    requires p.Valid()
    ensures HeldByDeleted(ImportOne(p, e).table, phone) <==> HeldByDeleted(p.table, phone)
  {
    if e.cell.Usable? {
      ImportPhoneKeepsDeleted(p.table, p.next, e.cell.phone, e.profile, phone);
    }
  }

  lemma {:induction false} ImportKeepsDeleted(stages: seq<Progress>, entrants: seq<Entrant>, n: nat, phone: string)
    requires AreStages(stages, entrants) && n <= |entrants|
    ensures HeldByDeleted(stages[n].table, phone) <==> HeldByDeleted(stages[0].table, phone)
  {
    if n > 0 {
      ImportKeepsDeleted(stages, entrants, n - 1, phone);
      StageFollows(stages, entrants, n - 1);
      RowKeepsDeleted(stages[n - 1], entrants[n - 1], phone);
    }
  }

  lemma RowRefused(p: Progress, e: Entrant)
    requires p.Valid() && Violation !in p.outcomes
    ensures Violation in ImportOne(p, e).outcomes <==> e.cell.Usable? && HeldByDeleted(p.table, e.cell.phone)
  {
    if e.cell.Usable? {
      ImportPhoneBinds(p.table, p.next, e.cell.phone, e.profile);
    }
  }

  /** The import is refused exactly when a deleted contact of the channel holds the phone of
      one of the rows. */
  lemma {:induction false} ImportRefusedExactly(stages: seq<Progress>, entrants: seq<Entrant>, n: nat)
    requires AreStages(stages, entrants) && stages[0].outcomes == [] && n <= |entrants|
    ensures Violation in stages[n].outcomes
            <==> exists phone :: phone in Phones(entrants, n) && HeldByDeleted(stages[0].table, phone)
  {
    if n > 0 {
      ImportRefusedExactly(stages, entrants, n - 1);
      StageFollows(stages, entrants, n - 1);
      if Violation !in stages[n - 1].outcomes {
        RowRefused(stages[n - 1], entrants[n - 1]);
      }
      PhoneRefused(stages, entrants, n);
    }
  }

  lemma PhoneRefused(stages: seq<Progress>, entrants: seq<Entrant>, n: nat)
    requires AreStages(stages, entrants) && 0 < n <= |entrants|
    ensures forall phone :: phone in Phones(entrants, n) <==>
              phone in Phones(entrants, n - 1) || entrants[n - 1].cell == Usable(phone)
    ensures entrants[n - 1].cell.Usable? ==>
              var phone := entrants[n - 1].cell.phone;
              HeldByDeleted(stages[n - 1].table, phone) <==> HeldByDeleted(stages[0].table, phone)
  {
    if entrants[n - 1].cell.Usable? {
      ImportKeepsDeleted(stages, entrants, n - 1, entrants[n - 1].cell.phone);
    }
  }

  /** A violation ends the import whatever rows follow. */
  lemma {:induction false} ViolationStays(stages: seq<Progress>, entrants: seq<Entrant>, i: nat)
    requires AreStages(stages, entrants) && i <= |entrants| && Violation in stages[i].outcomes
    ensures Violation in stages[|entrants|].outcomes
    decreases |entrants| - i
  {
    if i < |entrants| {
      StageFollows(stages, entrants, i);
      ViolationStays(stages, entrants, i + 1);
    }
  }

  // ----- what becomes of the rows

  predicate HasNoPhone(row: Row) {
    row.phone == ""
  }

  /** A row with a phone, but none that can be dialled. */
  predicate Undialable(row: Row) {
    row.phone != "" && (Digits(row.phone) == "" || Digits(row.phone) == "00")
  }

  ghost function CountRows(rows: seq<Row>, n: nat, holds: Row -> bool): nat
    requires n <= |rows|
  {
    if n == 0 then 0 else CountRows(rows, n - 1, holds) + if holds(rows[n - 1]) then 1 else 0
  }

  lemma ReadExactly(row: Row)
    ensures Read(row).cell == Blank <==> row.phone == ""
    ensures Read(row).cell == Unusable <==> Undialable(row)
  {
    EmptyExactly(row.phone, CountryDial(row.country));
  }

  /** Skipped are the rows with a blank phone, invalid those whose phone cannot be dialled, and
      all others are created or existing. */
  lemma {:induction false} CountsMean(stages: seq<Progress>, rows: seq<Row>, n: nat)
    requires AreStages(stages, ReadAll(rows)) && stages[0].outcomes == [] && n <= |rows|
    requires Violation !in stages[n].outcomes
    ensures var t := TallyOf(stages[n].outcomes);
            && t.skipped == CountRows(rows, n, HasNoPhone)
            && t.invalid == CountRows(rows, n, Undialable)
            && t.created + t.existing + t.skipped + t.invalid == n
  {
    if n > 0 {
      StageFollows(stages, ReadAll(rows), n - 1);
      RowKeepsViolations(stages[n - 1], Read(rows[n - 1]));
      CountsMean(stages, rows, n - 1);
      ReadExactly(rows[n - 1]);
      RowCounts(stages[n - 1], Read(rows[n - 1]));
    }
  }

  lemma RowCounts(p: Progress, e: Entrant)
    requires p.Valid() && Violation !in ImportOne(p, e).outcomes
    ensures var t, u := TallyOf(p.outcomes), TallyOf(ImportOne(p, e).outcomes);
            && u.skipped == t.skipped + (if e.cell == Blank then 1 else 0)
            && u.invalid == t.invalid + (if e.cell == Unusable then 1 else 0)
            && u.created + u.existing == t.created + t.existing + if e.cell.Usable? then 1 else 0
  {
    match e.cell
    case Blank => OutcomeAppended(p.outcomes, Skipped);
    case Unusable => OutcomeAppended(p.outcomes, Invalid);
    case Usable(phone) =>
      var outcome := ImportPhone(p.table, p.next, phone, e.profile).1;
      OutcomeAppended(p.outcomes, outcome);
      assert outcome in p.outcomes + [outcome];
  }

  /** A row spelling the local number `d` of its country, in any way, is imported under the dial
      code and `d`. */
  lemma RowStores(row: Row, d: string)
    requires row.phone != "" && IsLocal(d, CountryDial(row.country)) && Spells(row.phone, d, CountryDial(row.country))
    ensures Read(row).cell == Usable(CountryDial(row.country) + d)
  {
    var dial := CountryDial(row.country);
    assert IsDigit(dial[0]) && IsDigit(dial[1]) && IsDigit(dial[2]);
    DigitsOfDigits(dial);
    SpellingsAgree(row.phone, dial, d);
  }

  /** The contact a row is imported into takes over the fields given; no other contact changes. */
  lemma ImportTakesOver(t: Table, next: nat, phone: string, profile: Profile)
    requires UniqueAddresses(t) && Below(t, next)
    ensures var (t1, outcome) := ImportPhone(t, next, phone, profile);
            && (outcome.Existing? ==>
                  && outcome.id in t && t[outcome.id].address == phone && !t[outcome.id].deleted && t1.Keys == t.Keys
                  && TakesOver(t[outcome.id].profile, profile, t1[outcome.id].profile))
            && (outcome.Created? ==>
                  outcome.id !in t && outcome.id in t1 && t1[outcome.id] == ChannelContact(phone, false, profile))
            && (forall id :: id in t && !(outcome.Existing? && id == outcome.id) ==> id in t1 && t1[id] == t[id])
  {
    AddressHolders(t, phone);
  }

  // ----- imports among the other ways of writing contacts

  /** The contacts of one channel, as an import sees them. */
  ghost function Slice(contacts: map<ContactId, Contact>, organization: OrganizationId, channel: ChannelId): Table {
    map id | id in contacts && OnChannel(contacts[id], organization, channel) ::
      ChannelContact(contacts[id].address, contacts[id].deleted, contacts[id].profile)
  }

  ghost predicate Reports(outcome: RowOutcome, r: CreateResult) {
    match r
    case Saved(id) => outcome == Existing(id) || outcome == Created(id)
    case Refused(error) => error == UniqueViolation && outcome == Violation
  }

  lemma SliceHolders(contacts: map<ContactId, Contact>, e: Entry)
    ensures var t := Slice(contacts, e.organization, e.channel);
            && (forall k :: AtAddress(contacts, k, e) <==> k in t && !t[k].deleted && t[k].address == e.number)
            && (HeldByDeleted(t, e.number) <==> DeletedHolds(contacts, e))
  {
    var t := Slice(contacts, e.organization, e.channel);
    if HeldByDeleted(t, e.number) {
      var k :| k in t && t[k].deleted && t[k].address == e.number;
      assert k in contacts && contacts[k].deleted && contacts[k].address == e.number;
    }
    if DeletedHolds(contacts, e) {
      var k :| k in contacts && contacts[k].deleted && OnChannel(contacts[k], e.organization, e.channel)
               && contacts[k].address == e.number;
      assert k in t && t[k].deleted && t[k].address == e.number;
    }
  }

  lemma SliceAfter(contacts: map<ContactId, Contact>, id: ContactId, c: Contact)
    ensures Slice(contacts[id := c], c.organization, c.channel)
            == Slice(contacts, c.organization, c.channel)[id := ChannelContact(c.address, c.deleted, c.profile)]
  {
  }

  /** Importing a row into a channel is the import step of the contacts table. */
  lemma ImportPhoneIsStep(s: State, e: Entry, profile: Profile, t: State, r: CreateResult)
    requires s.next !in s.contacts
    requires UniqueAddresses(Slice(s.contacts, e.organization, e.channel)) && ImportsRow(s, e, profile, t, r)
    ensures var (table, outcome) :=
              ImportPhone(Slice(s.contacts, e.organization, e.channel), s.next, e.number, profile);
            table == Slice(t.contacts, e.organization, e.channel) && Reports(outcome, r)
  {
    var before := Slice(s.contacts, e.organization, e.channel);
    AddressHolders(before, e.number);
    SliceHolders(s.contacts, e);
    if r.Saved? {
      SliceAfter(s.contacts, r.id, t.contacts[r.id]);
      if AtAddress(s.contacts, r.id, e) {
        assert AddressIndex(before)[before[r.id].address] == r.id;
      }
    }
  }

  ghost predicate NormalTable(t: Table) {
    forall id :: id in t ==> IsNormal(t[id].address)
  }

  function NumberIn(t: Table, id: ContactId): string
    requires id in t
  {
    NormalizeWhatsappPhone(t[id].address, DEFAULT_COUNTRY_CODE)
  }

  /** No two live contacts of the channel stand for one number. */
  ghost predicate DistinctNumbers(t: Table) {
    forall a, b :: a in t && b in t && !t[a].deleted && !t[b].deleted && NumberIn(t, a) == NumberIn(t, b) ==> a == b
  }

  lemma NormalMeansDistinct(t: Table)
    requires NormalTable(t) && UniqueAddresses(t)
    ensures DistinctNumbers(t)
  {
    assert forall id :: id in t ==> IsNormal(t[id].address);
  }

  /** Whatever normal table it meets, no row of this country makes two live contacts share a
      number. */
  ghost predicate CountryKeepsNumbers(country: string) {
    forall t: Table, next: nat, raw: string, profile: Profile ::
      UniqueAddresses(t) && Below(t, next) && NormalTable(t) && Read(Row(raw, country, profile)).cell.Usable? ==>
        DistinctNumbers(ImportPhone(t, next, Read(Row(raw, country, profile)).cell.phone, profile).0)
  }

  lemma KuwaitiRowIsNormal(row: Row)
    requires CountryDial(row.country) == DEFAULT_COUNTRY_CODE
    ensures Read(row).cell.Usable? ==> IsNormal(Read(row).cell.phone)
  {
    DefaultIsDigits();
    DigitsOfDigits(DEFAULT_COUNTRY_CODE);
    NormalizeTwiceDefault(row.phone, DEFAULT_COUNTRY_CODE);
  }

  /** An import adds no address but the row's own. */
  lemma ImportPhoneAddresses(t: Table, next: nat, phone: string, profile: Profile, ok: string -> bool)
    requires UniqueAddresses(t) && ok(phone) && forall id :: id in t ==> ok(t[id].address)
    ensures var t1 := ImportPhone(t, next, phone, profile).0; forall id :: id in t1 ==> ok(t1[id].address)
  {
  }

  lemma ImportPhoneKeepsNormal(t: Table, next: nat, phone: string, profile: Profile)
    requires UniqueAddresses(t) && NormalTable(t) && IsNormal(phone)
    ensures NormalTable(ImportPhone(t, next, phone, profile).0)
  {
    ImportPhoneAddresses(t, next, phone, profile, IsNormal);
  }

  /** Imports keep numbers distinct exactly for rows dialled with 965. */
  lemma CountryKeepsNumbersExactly(country: string)
    ensures CountryKeepsNumbers(country) <==> CountryDial(country) == DEFAULT_COUNTRY_CODE
  {
    if CountryDial(country) == DEFAULT_COUNTRY_CODE {
      forall t: Table, next: nat, raw: string, profile: Profile |
        UniqueAddresses(t) && Below(t, next) && NormalTable(t) && Read(Row(raw, country, profile)).cell.Usable?
        ensures DistinctNumbers(ImportPhone(t, next, Read(Row(raw, country, profile)).cell.phone, profile).0)
      {
        var phone := Read(Row(raw, country, profile)).cell.phone;
        KuwaitiRowIsNormal(Row(raw, country, profile));
        ImportPhoneBinds(t, next, phone, profile);
        ImportPhoneKeepsNormal(t, next, phone, profile);
        NormalMeansDistinct(ImportPhone(t, next, phone, profile).0);
      }
    } else {
      ForeignCountryDuplicates(country);
    }
  }

  /** A row of another country adds a second contact for a number already there. */
  lemma ForeignCountryDuplicates(country: string)
    requires CountryDial(country) != DEFAULT_COUNTRY_CODE
    ensures !CountryKeepsNumbers(country)
  {
    var dial := CountryDial(country);
    DigitsOfDigits("123");
    DigitsOfDigits(dial);
    DialledMisreads(dial);
    var phone, m := ForeignRowMisreads("123", dial);
    MisreadRowDuplicates(country, "123", phone, m);
  }

  /** A foreign number is stored under its own dial code, which the default code reads as
      another number `m`, itself a normal form. */
  lemma ForeignRowMisreads(raw: string, dial: string) returns (phone: string, m: string)
    requires raw != "" && Digits(raw) == raw && dial != "" && Digits(dial) == dial
    requires Dialled(raw, dial) != "" && |ReadAsDefault(Dialled(raw, dial))| > |Dialled(raw, dial)|
    ensures phone == NormalizeWhatsappPhone(raw, dial) && phone != "" && phone != m
    ensures NormalizeWhatsappPhone(phone, DEFAULT_COUNTRY_CODE) == m && IsNormal(m)
  {
    phone := NormalizeWhatsappPhone(raw, dial);
    NormalOfDigits(raw, dial);
    NormalFormIsDigits(raw, dial);
    DefaultIsDigits();
    DigitsOfDigits(DEFAULT_COUNTRY_CODE);
    NormalOfDigits(phone, DEFAULT_COUNTRY_CODE);
    m := NormalizeWhatsappPhone(phone, DEFAULT_COUNTRY_CODE);
    NormalizeTwiceDefault(phone, DEFAULT_COUNTRY_CODE);
  }

  function Dialled(raw: string, dial: string): string {
    Localise(DropExit(raw), dial)
  }

  lemma DialledMisreads(dial: string)
    requires |dial| == 3 && dial[0] == '9' && dial != DEFAULT_COUNTRY_CODE
    ensures Dialled("123", dial) == dial + "123" && |ReadAsDefault(dial + "123")| == 9
  {
    assert StripZeros("123") == "123";
    var n := dial + "123";
    assert n[0] == '9' && n[..3] == dial;
  }

  lemma MisreadRowDuplicates(country: string, raw: string, phone: string, m: string)
    requires raw != "" && phone == NormalizeWhatsappPhone(raw, CountryDial(country)) && phone != "" && phone != m
    requires NormalizeWhatsappPhone(phone, DEFAULT_COUNTRY_CODE) == m && IsNormal(m)
    ensures !CountryKeepsNumbers(country)
  {
    var blank := Profile(None, None, None, None);
    var t: Table := map[0 := ChannelContact(m, false, blank)];
    SecondRow(t, phone, m, blank);
    OneRowBreaksIt(t, 1, Row(raw, country, blank));
  }

  lemma SecondRow(t: Table, phone: string, m: string, profile: Profile)
    requires t.Keys == {0} && !t[0].deleted && t[0].address == m && phone != m
    requires NormalizeWhatsappPhone(phone, DEFAULT_COUNTRY_CODE) == m && IsNormal(m)
    ensures UniqueAddresses(t) && Below(t, 1) && NormalTable(t)
    ensures !DistinctNumbers(ImportPhone(t, 1, phone, profile).0)
  {
    AddressHolders(t, phone);
    var t1 := ImportPhone(t, 1, phone, profile).0;
    assert t1 == t[1 := ChannelContact(phone, false, profile)];
    assert NumberIn(t1, 0) == NumberIn(t1, 1);
  }

  lemma OneRowBreaksIt(t: Table, next: nat, row: Row)
    requires UniqueAddresses(t) && Below(t, next) && NormalTable(t) && Read(row).cell.Usable?
    requires !DistinctNumbers(ImportPhone(t, next, Read(row).cell.phone, row.profile).0)
    ensures !CountryKeepsNumbers(row.country)
  {
  }

  /** After any number of Kuwaiti rows every address is in normal form, so the live contacts of
      the channel have distinct numbers. */
  lemma {:induction false} KuwaitiImportKeepsNumbers(stages: seq<Progress>, rows: seq<Row>, n: nat)
    requires AreStages(stages, ReadAll(rows)) && n <= |rows| && NormalTable(stages[0].table)
    requires forall i :: 0 <= i < |rows| ==> CountryDial(rows[i].country) == DEFAULT_COUNTRY_CODE
    ensures stages[n].Valid() && NormalTable(stages[n].table) && DistinctNumbers(stages[n].table)
  {
    if n > 0 {
      var q := stages[n - 1];
      KuwaitiImportKeepsNumbers(stages, rows, n - 1);
      StageFollows(stages, ReadAll(rows), n - 1);
      ImportOneKeepsValid(q, Read(rows[n - 1]));
      KuwaitiRowIsNormal(rows[n - 1]);
      if Read(rows[n - 1]).cell.Usable? {
        ImportPhoneKeepsNormal(q.table, q.next, Read(rows[n - 1]).cell.phone, rows[n - 1].profile);
      }
    }
    NormalMeansDistinct(stages[n].table);
  }

  // ----- the service

  class Importer {
    const channels: map<ChannelId, Channel>
    /** The contacts of the channel named by the request. */
    var contacts: Table
    var next: nat
    /** The contacts as of the last commit, restored when an insert is refused. */
    var committed: Table

    ghost function View(): Progress
      reads this
    {
      Progress(contacts, next, [])
    }

    constructor (channels: map<ChannelId, Channel>, contacts: Table, next: nat)
      requires UniqueAddresses(contacts) && Below(contacts, next)
      ensures this.channels == channels && View() == Progress(contacts, next, []) && committed == contacts
    {
      this.channels, this.contacts, this.next, committed := channels, contacts, next, contacts;
    }

    /** A row with a usable phone; after it `index1` is again the address-to-id map of the
        live contacts. */
    method ImportUsable(phone: string, profile: Profile, index: map<string, ContactId>)
      returns (outcome: RowOutcome, index1: map<string, ContactId>)
      requires UniqueAddresses(contacts) && Below(contacts, next) && index == AddressIndex(contacts)
      modifies this`contacts, this`next
      ensures (contacts, outcome) == ImportPhone(old(contacts), old(next), phone, profile)
      ensures next == old(next) + 1 && UniqueAddresses(contacts) && Below(contacts, next)
      ensures index1 == AddressIndex(contacts)
    {
      ImportPhoneBinds(contacts, next, phone, profile);
      AddressHolders(contacts, phone);
      next := next + 1;
      index1 := index;
      if phone in index {
        var id := index[phone];
        contacts := contacts[id := contacts[id].(profile := Overlay(contacts[id].profile, profile))];
        return Existing(id), index1;
      }
      if k :| k in contacts && contacts[k].address == phone {
        return Violation, index1;
      }
      var id := next - 1;
      contacts := contacts[id := ChannelContact(phone, false, profile)];
      index1 := index1[phone := id];
      return Created(id), index1;
    }

    /** One turn of the loop over the rows. */
    method ImportNext(entrants: seq<Entrant>, i: nat, index: map<string, ContactId>, ghost stages: seq<Progress>)
      returns (outcome: RowOutcome, index1: map<string, ContactId>)
      requires i < |entrants| && AreStages(stages, entrants) && Violation !in stages[i].outcomes
      requires contacts == stages[i].table && next == stages[i].next && UniqueAddresses(contacts)
      requires index == AddressIndex(contacts)
      modifies this`contacts, this`next
      ensures Progress(contacts, next, stages[i].outcomes + [outcome]) == stages[i + 1]
      ensures UniqueAddresses(contacts) && index1 == AddressIndex(contacts)
      ensures outcome == Violation ==> Violation in stages[|entrants|].outcomes
    {
      StageFollows(stages, entrants, i);
      match entrants[i].cell
      case Blank => outcome, index1 := Skipped, index;
      case Unusable => outcome, index1 := Invalid, index;
      case Usable(phone) =>
        outcome, index1 := ImportUsable(phone, entrants[i].profile, index);
        if outcome == Violation {
          OutcomeAppended(stages[i].outcomes, Violation);
          ViolationStays(stages, entrants, i + 1);
        }
    }

    /** The stage n of the last commit before stage f is refused: a hundred rows imported for
        every commit so far, and fewer than a hundred since. */
    ghost predicate LastCommit(stages: seq<Progress>, n: nat, f: nat) {
      && n <= f < |stages| - 1
      && Violation !in stages[f].outcomes && Violation in stages[f + 1].outcomes
      && exists batch: nat :: Batched(|Touched(stages[n].outcomes)|, |Touched(stages[f].outcomes)|, batch)
    }

    /** `batch` rows were imported since a commit after `saved` imported rows. */
    ghost predicate Batched(saved: nat, imported: nat, batch: nat) {
      saved % 100 == 0 && imported == saved + batch && batch < 100
    }

    /** Commits fall on whole hundreds of imported rows: k hundreds were imported by the last one,
        and the refused row belongs to the hundred after them. */
    lemma CommitsByHundreds(stages: seq<Progress>, n: nat, f: nat) returns (k: nat)
      requires LastCommit(stages, n, f)
      ensures |Touched(stages[n].outcomes)| == 100 * k
      ensures 100 * k <= |Touched(stages[f].outcomes)| < 100 * (k + 1)
    {
      k := |Touched(stages[n].outcomes)| / 100;
    }

    /** Stage `saved` is the last commit, and `batch` rows were imported from it to stage f. */
    ghost predicate SinceCommit(stages: seq<Progress>, saved: nat, f: nat, batch: nat)
      reads this`committed
    {
      && saved <= f < |stages| && committed == stages[saved].table
      && Batched(|Touched(stages[saved].outcomes)|, |Touched(stages[f].outcomes)|, batch)
    }

    /** What an import through these stages returns and leaves in the table: on success the last
        stage, on a refused insert the last commit. */
    ghost predicate Outcome(stages: seq<Progress>, r: ImportResult)
      requires stages != []
      reads this
    {
      var q := stages[|stages| - 1];
      && committed == contacts
      && if Violation in q.outcomes then
           && r == Failed(UniqueViolation)
           && exists n: nat, f: nat {:trigger LastCommit(stages, n, f)} ::
               LastCommit(stages, n, f) && contacts == stages[n].table
         else
           && contacts == q.table
           && r.Imported? && Tally(r.created, r.existing, r.skipped, r.invalid) == TallyOf(q.outcomes)
           && r.contactIds == Touched(q.outcomes)
    }

    /** The database refuses the row after stage f and takes the table back to stage `saved`. */
    method RollBack(ghost stages: seq<Progress>, ghost saved: nat, ghost f: nat, ghost batch: nat)
      returns (r: ImportResult)
      requires f < |stages| - 1 && SinceCommit(stages, saved, f, batch)
      requires Violation !in stages[f].outcomes && Violation in stages[f + 1].outcomes
      requires Violation in stages[|stages| - 1].outcomes
      modifies this`contacts
      ensures Outcome(stages, r)
    {
      contacts := committed;
      assert LastCommit(stages, saved, f);
      r := Failed(UniqueViolation);
    }

    /** Counts a row and reports the contact it was imported into. */
    method Record(outcome: RowOutcome, tally: Tally, ids: seq<ContactId>, ghost outcomes: seq<RowOutcome>)
      returns (tally1: Tally, ids1: seq<ContactId>)
      requires tally == TallyOf(outcomes) && ids == Touched(outcomes)
      ensures tally1 == TallyOf(outcomes + [outcome]) && ids1 == Touched(outcomes + [outcome])
    {
      OutcomeAppended(outcomes, outcome);
      tally1, ids1 := tally, ids;
      match outcome {
        case Skipped => tally1 := tally.(skipped := tally.skipped + 1);
        case Invalid => tally1 := tally.(invalid := tally.invalid + 1);
        case Existing(id) => tally1, ids1 := tally.(existing := tally.existing + 1), ids + [id];
        case Created(id) => tally1, ids1 := tally.(created := tally.created + 1), ids + [id];
        case Violation =>
      }
    }

    /** After a row: counts it if it was imported, and commits when a hundred are due. */
    method CommitWhenDue(outcome: RowOutcome, batch: nat, ghost stages: seq<Progress>, ghost saved: nat, ghost i: nat)
      returns (batch1: nat, ghost saved1: nat)
      requires i < |stages| - 1 && SinceCommit(stages, saved, i, batch)
      requires stages[i + 1].outcomes == stages[i].outcomes + [outcome] && contacts == stages[i + 1].table
      modifies this`committed
      ensures SinceCommit(stages, saved1, i + 1, batch1)
    {
      OutcomeAppended(stages[i].outcomes, outcome);
      batch1, saved1 := batch, saved;
      if outcome.Existing? || outcome.Created? {
        batch1 := batch1 + 1;
        if batch1 >= 100 {
          committed, saved1, batch1 := contacts, i + 1, 0;
        }
      }
    }

    /** The loop: commits after every hundred imported rows and at the end; a refused insert
        takes the table back to the last commit. */
    method ImportRows(entrants: seq<Entrant>, ghost stages: seq<Progress>) returns (r: ImportResult)
      requires AreStages(stages, entrants) && View() == stages[0] && UniqueAddresses(contacts) && committed == contacts
      modifies this
      ensures Outcome(stages, r)
    {
      var index := map id | id in contacts && !contacts[id].deleted :: contacts[id].address := id;
      var tally, contactIds := Tally(0, 0, 0, 0), [];
      var batch: nat := 0;
      ghost var saved: nat := 0;
      for i := 0 to |entrants|
        invariant Violation !in stages[i].outcomes
        invariant contacts == stages[i].table && next == stages[i].next && UniqueAddresses(contacts)
        invariant index == AddressIndex(contacts)
        invariant tally == TallyOf(stages[i].outcomes) && contactIds == Touched(stages[i].outcomes)
        invariant SinceCommit(stages, saved, i, batch)
      {
        var outcome, index1 := ImportNext(entrants, i, index, stages);
        if outcome == Violation {
          r := RollBack(stages, saved, i, batch);
          return;
        }
        index := index1;
        tally, contactIds := Record(outcome, tally, contactIds, stages[i].outcomes);
        batch, saved := CommitWhenDue(outcome, batch, stages, saved, i);
      }
      committed := contacts;
      return Imported(tally.created, tally.existing, tally.skipped, tally.invalid, contactIds);
    }

    /** import_contacts_from_rows */
    method ImportContactsFromRows(account: AccountId, organization: OrganizationId, channel: ChannelId, rows: seq<Row>)
      returns (r: ImportResult)
      requires View().Valid() && committed == contacts
      modifies this
      ensures if channel !in channels || channels[channel].account != account || channels[channel].deleted then
                r == Failed(InvalidChannel) && View() == old(View())
              else if channels[channel].organization != organization then
                r == Failed(ChannelOrganizationMismatch) && View() == old(View())
              else Outcome(Stages(old(View()), ReadAll(rows)), r)
    {
      if channel !in channels || channels[channel].account != account || channels[channel].deleted {
        return Failed(InvalidChannel);
      }
      if channels[channel].organization != organization {
        return Failed(ChannelOrganizationMismatch);
      }
      r := ImportRows(ReadAll(rows), Stages(View(), ReadAll(rows)));
    }
  }
}
