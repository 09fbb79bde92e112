/** The journal's database guards (backend/alembic/versions/0009_finance_journal.py): triggers and
    constraints as a filter on arbitrary row writes, with SQL three-valued logic. */
module Journal {
  import opened Options
  import Allocation
  import ScaledStorage

  type EntryId = nat
  type LineId = nat
  type PeriodId = nat
  type DocumentId = nat
  type Date = int

  datatype Status = DRAFT | POSTED | REVERSED

  datatype Entry = Entry(
    tenant: nat, document: DocumentId, number: Option<string>, postingDate: Date, period: Option<PeriodId>,
    documentType: string, currency: string, status: Status, reverses: Option<EntryId>,
    reversedBy: Option<EntryId>)

  /** Amounts are stored minor units; debit and credit are the functional-currency columns. */
  datatype Line = Line(
    tenant: nat, entry: EntryId, transactionDebit: int, transactionCredit: int, debit: int, credit: int, posted: bool)

  datatype Period = Period(tenant: nat, open: bool, start: Date, end: Date)

  /** A line's id is its slot; a deleted slot stays empty. documents gives the tenant of every
      registered document. */
  datatype Db = Db(
    entries: map<EntryId, Entry>, lines: seq<Option<Line>>, periods: map<PeriodId, Period>,
    documents: map<DocumentId, nat>)

  // ---- Three-valued logic -----------------------------------------------------------------

  datatype Truth = True | False | Unknown

  function Not(a: Truth): Truth {
    match a
    case True => False
    case False => True
    case Unknown => Unknown
  }

  function And(a: Truth, b: Truth): Truth {
    if a == False || b == False then False else if a == True && b == True then True else Unknown
  }

  function Is(b: bool): Truth {
    if b then True else False
  }

  /** a = b on nullable columns. */
  function Equal<T(==)>(a: Option<T>, b: Option<T>): Truth {
    if a.None? || b.None? then Unknown else Is(a.value == b.value)
  }

  // ---- Sums -------------------------------------------------------------------------------

  datatype Measure = EntryDebit(entry: EntryId) | EntryCredit(entry: EntryId) | PostedDebit | PostedCredit

  function Amount(slot: Option<Line>, m: Measure): int {
    if slot.None? then 0 else
      var l := slot.value;
      match m
      case EntryDebit(e) => if l.entry == e then l.debit else 0
      case EntryCredit(e) => if l.entry == e then l.credit else 0
      case PostedDebit => if l.posted then l.debit else 0
      case PostedCredit => if l.posted then l.credit else 0
  }

  function Sum(lines: seq<Option<Line>>, m: Measure): int {
    if lines == [] then 0 else Sum(lines[..|lines| - 1], m) + Amount(lines[|lines| - 1], m)
  }

  predicate Counts(l: Line, m: Measure) {
    match m
    case EntryDebit(e) => l.entry == e
    case EntryCredit(e) => l.entry == e
    case _ => l.posted
  }

  /** The stored integers the SQL aggregate runs over: one per matching line. */
  function Column(lines: seq<Option<Line>>, m: Measure): seq<int> {
    if lines == [] then [] else
      var slot := lines[|lines| - 1];
      Column(lines[..|lines| - 1], m) + if slot.Some? && Counts(slot.value, m) then [Amount(slot, m)] else []
  }

  lemma {:induction false} ColumnTotal(lines: seq<Option<Line>>, m: Measure)
    ensures Allocation.Total(Column(lines, m)) == Sum(lines, m)
  {
    if lines != [] {
      var front, slot := lines[..|lines| - 1], lines[|lines| - 1];
      ColumnTotal(front, m);
      if slot.Some? && Counts(slot.value, m) {
        assert (Column(front, m) + [Amount(slot, m)])[..|Column(front, m)|] == Column(front, m);
      } else {
        assert Column(lines, m) == Column(front, m);
      }
    }
  }

  // ---- Guards -----------------------------------------------------------------------------

  predicate OpenPeriodCovers(db: Db, e: Entry) {
    exists p :: p in db.periods && Covers(db.periods[p], e)
  }

  predicate Covers(p: Period, e: Entry) {
    p.tenant == e.tenant && p.open && p.start <= e.postingDate <= p.end
  }

  predicate Unbalanced(db: Db, id: EntryId) {
    ScaledStorage.UnbalancedIntegers(Column(db.lines, EntryDebit(id)), Column(db.lines, EntryCredit(id)))
  }

  lemma UnbalancedSums(db: Db, id: EntryId)
    ensures Unbalanced(db, id) <==> !Balanced(db, id)
  {
    ColumnTotal(db.lines, EntryDebit(id));
    ColumnTotal(db.lines, EntryCredit(id));
  }

  /** The guard's verdict on the stored integers is the verdict on the decimal amounts they stand for. */
  lemma BalanceVerdictIsDecimal(db: Db, id: EntryId, debits: seq<real>, credits: seq<real>)
    requires forall i :: 0 <= i < |debits| ==> ScaledStorage.InScale(debits[i], ScaledStorage.MONEY_SCALE)
    requires forall i :: 0 <= i < |credits| ==> ScaledStorage.InScale(credits[i], ScaledStorage.MONEY_SCALE)
    requires Column(db.lines, EntryDebit(id)) == ScaledStorage.BindAll(debits, ScaledStorage.MONEY_SCALE)
    requires Column(db.lines, EntryCredit(id)) == ScaledStorage.BindAll(credits, ScaledStorage.MONEY_SCALE)
    ensures Balanced(db, id) <==> Allocation.Sum(debits) == Allocation.Sum(credits) > 0.0
  {
    UnbalancedSums(db, id);
    ScaledStorage.EnginesAgreeOnBalance(debits, credits, ScaledStorage.MONEY_SCALE);
  }

  /** The reversal the header trigger lets through. */
  function Sanctioned(was: Entry, now: Entry): Truth {
    var dated := And(Is(now.postingDate == was.postingDate), Equal(now.period, was.period));
    var named := And(Is(now.documentType == was.documentType), Equal(now.number, was.number));
    var reversed := And(Is(now.status == REVERSED), Is(now.reversedBy.Some?));
    And(reversed, And(dated, And(named, Is(now.currency == was.currency))))
  }

  /** ck_fin_journal_lines_one_side, on the transaction amounts. */
  predicate OneSide(l: Line) {
    (l.transactionDebit > 0 && l.transactionCredit == 0) || (l.transactionCredit > 0 && l.transactionDebit == 0)
  }

  // ---- Keys and references ----------------------------------------------------------------

  /** A composite (tenant, id) reference to an entry resolves. */
  predicate Owned(db: Db, tenant: nat, id: EntryId) {
    id in db.entries && db.entries[id].tenant == tenant
  }

  predicate ReferencesResolve(db: Db, e: Entry) {
    && e.document in db.documents && db.documents[e.document] == e.tenant
    && (e.reverses.Some? ==> Owned(db, e.tenant, e.reverses.value))
    && (e.reversedBy.Some? ==> Owned(db, e.tenant, e.reversedBy.value))
    && (e.period.Some? ==> e.period.value in db.periods && db.periods[e.period.value].tenant == e.tenant)
  }

  /** Two entries may share neither a document nor, within a tenant, a number. */
  predicate Duplicate(a: Entry, b: Entry) {
    a.document == b.document || (a.tenant == b.tenant && a.number.Some? && a.number == b.number)
  }

  predicate LineHolds(db: Db, slot: Option<Line>) {
    slot.Some? ==> Owned(db, slot.value.tenant, slot.value.entry) && OneSide(slot.value)
  }

  /** Foreign keys, the unique document and entry number, and the CHECK, over the whole database. */
  predicate Integral(db: Db) {
    && (forall id :: id in db.entries ==> ReferencesResolve(db, db.entries[id]))
    && (forall a, b :: a in db.entries && b in db.entries && a != b ==> !Duplicate(db.entries[a], db.entries[b]))
    && (forall i :: 0 <= i < |db.lines| ==> LineHolds(db, db.lines[i]))
  }

  // ---- Writes -----------------------------------------------------------------------------

  /** Row writes. Post is the posting transaction: the DRAFT->POSTED header UPDATE together with the
      flush that flips is_posted on all the entry's lines. SetPeriods and SetDocuments are any changes to the
      calendar and the document registry. */
  datatype Write =
    | InsertEntry(id: EntryId, entry: Entry)
    | UpdateEntry(id: EntryId, entry: Entry)
    | DeleteEntry(id: EntryId)
    | InsertLine(line: Line)
    | UpdateLine(slot: LineId, line: Line)
    | DeleteLine(slot: LineId)
    | Post(id: EntryId, entry: Entry)
    | SetPeriods(periods: map<PeriodId, Period>)
    | SetDocuments(documents: map<DocumentId, nat>)

  predicate HasLine(db: Db, slot: LineId) {
    slot < |db.lines| && db.lines[slot].Some?
  }

  /** The row written is there, or, for an insert, its key is free. */
  predicate Addressed(db: Db, w: Write) {
    match w
    case InsertEntry(id, e) => id !in db.entries
    case UpdateEntry(id, e) => id in db.entries
    case DeleteEntry(id) => id in db.entries
    case UpdateLine(slot, l) => HasLine(db, slot)
    case DeleteLine(slot) => HasLine(db, slot)
    case Post(id, e) => id in db.entries && db.entries[id].status == DRAFT && e.status == POSTED
    case _ => true
  }

  predicate HeaderUpdatePasses(db: Db, id: EntryId, now: Entry)
    requires id in db.entries
  {
    var was := db.entries[id];
    && (now.status == POSTED && was.status != POSTED ==> OpenPeriodCovers(db, now) && !Unbalanced(db, id))
    && (was.status == POSTED ==> Not(Sanctioned(was, now)) != True)
  }

  predicate TriggersPass(db: Db, w: Write)
    requires Addressed(db, w)
  {
    match w
    case InsertEntry(id, e) => e.status == POSTED ==> OpenPeriodCovers(db, e)
    case UpdateEntry(id, e) => HeaderUpdatePasses(db, id, e)
    case DeleteEntry(id) => db.entries[id].status == DRAFT
    case UpdateLine(slot, l) => !db.lines[slot].value.posted
    case DeleteLine(slot) => !db.lines[slot].value.posted
    case Post(id, e) => HeaderUpdatePasses(db, id, e)
    case _ => true
  }

  /** The write reaches its row, no trigger raises, and what it leaves satisfies the constraints. */
  predicate Permitted(db: Db, w: Write) {
    Addressed(db, w) && TriggersPass(db, w) && Integral(Apply(db, w))
  }

  function Flipped(slot: Option<Line>, id: EntryId): Option<Line> {
    if slot.Some? && slot.value.entry == id then Some(slot.value.(posted := true)) else slot
  }

  function Flip(lines: seq<Option<Line>>, id: EntryId): (out: seq<Option<Line>>)
    ensures |out| == |lines| && forall i :: 0 <= i < |lines| ==> out[i] == Flipped(lines[i], id)
  {
    seq(|lines|, i requires 0 <= i < |lines| => Flipped(lines[i], id))
  }

  function Apply(db: Db, w: Write): Db
    requires Addressed(db, w)
  {
    match w
    case InsertEntry(id, e) => db.(entries := db.entries[id := e])
    case UpdateEntry(id, e) => db.(entries := db.entries[id := e])
    case DeleteEntry(id) => db.(entries := db.entries - {id})
    case InsertLine(l) => db.(lines := db.lines + [Some(l)])
    case UpdateLine(slot, l) => db.(lines := db.lines[slot := Some(l)])
    case DeleteLine(slot) => db.(lines := db.lines[slot := None])
    case Post(id, e) => db.(entries := db.entries[id := e], lines := Flip(db.lines, id))
    case SetPeriods(periods) => db.(periods := periods)
    case SetDocuments(documents) => db.(documents := documents)
  }

  // ---- What the header trigger really allows ----------------------------------------------------

  predicate Names(e: Entry, id: EntryId) {
    e.reverses == Some(id) || e.reversedBy == Some(id)
  }

  /** Another entry or a line refers to this entry. */
  predicate Referenced(db: Db, id: EntryId) {
    || (exists other :: other in db.entries && other != id && Names(db.entries[other], id))
    || (exists i :: 0 <= i < |db.lines| && db.lines[i].Some? && db.lines[i].value.entry == id)
  }

  /** An optional reference to an entry is NULL, the row itself, or an entry of the tenant. */
  predicate RefersWithin(db: Db, id: EntryId, tenant: nat, to: Option<EntryId>) {
    to.None? || to.value == id || (to.value in db.entries && db.entries[to.value].tenant == tenant)
  }

  /** The constraints on a header about to be written as row id, on the database before the write: its
      document is registered to its tenant and no other entry's, its number is NULL or no other entry's of
      the tenant, and its references stay within the tenant. */
  predicate RowIntegral(db: Db, id: EntryId, now: Entry) {
    && now.document in db.documents && db.documents[now.document] == now.tenant
    && RefersWithin(db, id, now.tenant, now.reverses) && RefersWithin(db, id, now.tenant, now.reversedBy)
    && (now.period.None? || (now.period.value in db.periods && db.periods[now.period.value].tenant == now.tenant))
    && (forall other :: other in db.entries && other != id ==>
          && db.entries[other].document != now.document
          && (db.entries[other].tenant == now.tenant ==> now.number.None? || db.entries[other].number != now.number))
  }

  /** An updated header may also move to another tenant only while nothing refers to it. */
  predicate UpdateIntegral(db: Db, id: EntryId, now: Entry)
    requires id in db.entries
  {
    (now.tenant == db.entries[id].tenant || !Referenced(db, id)) && RowIntegral(db, id, now)
  }

  lemma RowIntegralParts(db: Db, db': Db, id: EntryId, now: Entry)
    requires db'.entries == db.entries[id := now] && db'.periods == db.periods && db'.documents == db.documents
    ensures RowIntegral(db, id, now) <==>
      && ReferencesResolve(db', now)
      && forall other :: other in db.entries && other != id ==> !Duplicate(db.entries[other], now)
  {
  }

  lemma UpdateIntegralExact(db: Db, id: EntryId, now: Entry)
    requires Integral(db) && id in db.entries
    ensures Integral(Apply(db, UpdateEntry(id, now))) <==> UpdateIntegral(db, id, now)
  {
    var db' := Apply(db, UpdateEntry(id, now));
    RowIntegralParts(db, db', id, now);
    if UpdateIntegral(db, id, now) {
      forall other | other in db'.entries ensures ReferencesResolve(db', db'.entries[other]) {
        if other != id { assert ReferencesResolve(db, db.entries[other]); }
      }
      forall i | 0 <= i < |db'.lines| ensures LineHolds(db', db'.lines[i]) {
        assert LineHolds(db, db.lines[i]);
      }
    }
    if Integral(db') {
      assert ReferencesResolve(db', db'.entries[id]);
      UnreferencedIfMoved(db, id, now);
      forall other | other in db.entries && other != id ensures !Duplicate(db.entries[other], now) {
        assert db'.entries[other] == db.entries[other];
      }
    }
  }

  lemma UnreferencedIfMoved(db: Db, id: EntryId, now: Entry)
    requires Integral(db) && id in db.entries && Integral(Apply(db, UpdateEntry(id, now)))
    ensures now.tenant == db.entries[id].tenant || !Referenced(db, id)
  {
    var db' := Apply(db, UpdateEntry(id, now));
    if other :| other in db.entries && other != id && Names(db.entries[other], id) {
      assert ReferencesResolve(db, db.entries[other]) && ReferencesResolve(db', db'.entries[other]);
    }
    if i :| 0 <= i < |db.lines| && db.lines[i].Some? && db.lines[i].value.entry == id {
      assert LineHolds(db, db.lines[i]) && LineHolds(db', db'.lines[i]);
    }
  }

  // ---- Exactly which writes pass ----------------------------------------------------------------

  /** Some period of the tenant is open and contains the date. */
  predicate OpenOn(db: Db, tenant: nat, date: Date) {
    exists p :: p in db.periods &&
      db.periods[p].open && db.periods[p].tenant == tenant && db.periods[p].start <= date <= db.periods[p].end
  }

  lemma CoversMeans(db: Db, e: Entry)
    ensures OpenPeriodCovers(db, e) <==> OpenOn(db, e.tenant, e.postingDate)
  {
    if p :| p in db.periods && Covers(db.periods[p], e) {
      assert db.periods[p].open;
    }
    forall p | p in db.periods && !Covers(db.periods[p], e)
      ensures !(db.periods[p].open && db.periods[p].tenant == e.tenant &&
                db.periods[p].start <= e.postingDate <= db.periods[p].end) {
    }
  }

  /** Functional debits and credits of an entry's lines. */
  function Debits(lines: seq<Option<Line>>, id: EntryId): int {
    if lines == [] then 0 else
      var slot := lines[|lines| - 1];
      Debits(lines[..|lines| - 1], id) + if slot.Some? && slot.value.entry == id then slot.value.debit else 0
  }

  function Credits(lines: seq<Option<Line>>, id: EntryId): int {
    if lines == [] then 0 else
      var slot := lines[|lines| - 1];
      Credits(lines[..|lines| - 1], id) + if slot.Some? && slot.value.entry == id then slot.value.credit else 0
  }

  /** Functional debits less credits of all posted lines. */
  function PostedBalance(lines: seq<Option<Line>>): int {
    if lines == [] then 0 else
      var slot := lines[|lines| - 1];
      PostedBalance(lines[..|lines| - 1]) +
        if slot.Some? && slot.value.posted then slot.value.debit - slot.value.credit else 0
  }

  lemma {:induction false} SumsMean(lines: seq<Option<Line>>, id: EntryId)
    ensures Sum(lines, EntryDebit(id)) == Debits(lines, id) && Sum(lines, EntryCredit(id)) == Credits(lines, id)
    ensures Sum(lines, PostedDebit) - Sum(lines, PostedCredit) == PostedBalance(lines)
  {
    if lines != [] {
      SumsMean(lines[..|lines| - 1], id);
    }
  }

  /** The row may become POSTED: an open period of its tenant contains its date, and its lines' functional
      debits and credits are equal and positive. */
  predicate Postable(db: Db, id: EntryId, now: Entry) {
    OpenOn(db, now.tenant, now.postingDate) && Debits(db.lines, id) == Credits(db.lines, id) > 0
  }

  lemma PostableMeans(db: Db, id: EntryId, now: Entry)
    ensures Postable(db, id, now) <==> OpenPeriodCovers(db, now) && !Unbalanced(db, id)
  {
    CoversMeans(db, now);
    UnbalancedSums(db, id);
    SumsMean(db.lines, id);
  }

  /** A header that is not POSTED may be updated freely within the keys and references, but only a
      postable one to POSTED. */
  lemma UnpostedUpdateExactly(db: Db, id: EntryId, now: Entry)
    requires Integral(db) && id in db.entries && db.entries[id].status != POSTED
    ensures Permitted(db, UpdateEntry(id, now)) <==>
      (now.status == POSTED ==> Postable(db, id, now)) && UpdateIntegral(db, id, now)
  {
    UpdateIntegralExact(db, id, now);
    PostableMeans(db, id, now);
  }

  /** The posting transaction goes through exactly for a postable DRAFT entry whose keys hold. */
  lemma PostExactly(db: Db, id: EntryId, now: Entry)
    requires Integral(db)
    ensures Permitted(db, Post(id, now)) <==>
      && id in db.entries && db.entries[id].status == DRAFT && now.status == POSTED
      && Postable(db, id, now) && UpdateIntegral(db, id, now)
  {
    if Addressed(db, Post(id, now)) {
      UpdateIntegralExact(db, id, now);
      PostableMeans(db, id, now);
      FlipKeepsIntegral(db, id, now);
    }
  }

  lemma FlipKeepsIntegral(db: Db, id: EntryId, now: Entry)
    requires Addressed(db, Post(id, now))
    ensures Integral(Apply(db, Post(id, now))) <==> Integral(Apply(db, UpdateEntry(id, now)))
  {
    var a, b := Apply(db, Post(id, now)), Apply(db, UpdateEntry(id, now));
    forall e ensures ReferencesResolve(a, e) <==> ReferencesResolve(b, e) { }
    forall i | 0 <= i < |db.lines| ensures LineHolds(a, a.lines[i]) <==> LineHolds(b, b.lines[i]) {
      assert a.lines[i] == Flipped(db.lines[i], id);
    }
  }

  /** A new header is accepted exactly when its id is free, its keys hold and, if it arrives POSTED, an
      open period of its tenant contains its date; its balance is not looked at. */
  lemma EntryInsertExactly(db: Db, id: EntryId, e: Entry)
    requires Integral(db)
    ensures Permitted(db, InsertEntry(id, e)) <==>
      id !in db.entries && (e.status == POSTED ==> OpenOn(db, e.tenant, e.postingDate)) && RowIntegral(db, id, e)
  {
    if id !in db.entries {
      var db' := Apply(db, InsertEntry(id, e));
      CoversMeans(db, e);
      RowIntegralParts(db, db', id, e);
      if RowIntegral(db, id, e) {
        forall other | other in db'.entries ensures ReferencesResolve(db', db'.entries[other]) {
          if other != id { assert ReferencesResolve(db, db.entries[other]); }
        }
        forall i | 0 <= i < |db'.lines| ensures LineHolds(db', db'.lines[i]) { assert LineHolds(db, db.lines[i]); }
      }
      if Integral(db') {
        assert ReferencesResolve(db', db'.entries[id]);
        forall other | other in db.entries && other != id ensures !Duplicate(db.entries[other], e) {
          assert db'.entries[other] == db.entries[other] && db'.entries[id] == e;
        }
      }
    }
  }

  /** Only a DRAFT header nothing refers to can be deleted. */
  lemma EntryDeleteExactly(db: Db, id: EntryId)
    requires Integral(db)
    ensures Permitted(db, DeleteEntry(id)) <==>
      id in db.entries && db.entries[id].status == DRAFT && !Referenced(db, id)
  {
    if id in db.entries {
      var db' := Apply(db, DeleteEntry(id));
      if !Referenced(db, id) {
        forall other | other in db'.entries ensures ReferencesResolve(db', db'.entries[other]) {
          assert ReferencesResolve(db, db.entries[other]) && !Names(db.entries[other], id);
        }
        forall i | 0 <= i < |db'.lines| ensures LineHolds(db', db'.lines[i]) { assert LineHolds(db, db.lines[i]); }
      } else if other :| other in db.entries && other != id && Names(db.entries[other], id) {
        assert !ReferencesResolve(db', db'.entries[other]);
      } else {
        var i :| 0 <= i < |db.lines| && db.lines[i].Some? && db.lines[i].value.entry == id;
        assert !LineHolds(db', db'.lines[i]);
      }
    }
  }

  /** A line that fits: its entry exists for its tenant, and exactly one transaction amount is positive
      while the other is zero. */
  predicate LineFits(db: Db, l: Line) {
    && l.entry in db.entries && db.entries[l.entry].tenant == l.tenant
    && ((l.transactionDebit > 0) != (l.transactionCredit > 0))
    && (l.transactionDebit == 0 || l.transactionCredit == 0)
  }

  /** Lines may be inserted whenever they fit, and changed or deleted while not marked posted. */
  lemma LineWritesExactly(db: Db, slot: LineId, l: Line)
    requires Integral(db)
    ensures Permitted(db, InsertLine(l)) <==> LineFits(db, l)
    ensures Permitted(db, UpdateLine(slot, l)) <==>
      slot < |db.lines| && db.lines[slot].Some? && !db.lines[slot].value.posted && LineFits(db, l)
    ensures Permitted(db, DeleteLine(slot)) <==>
      slot < |db.lines| && db.lines[slot].Some? && !db.lines[slot].value.posted
  {
    OneLineChanged(db, Apply(db, InsertLine(l)), |db.lines|);
    if HasLine(db, slot) {
      OneLineChanged(db, Apply(db, UpdateLine(slot, l)), slot);
      OneLineChanged(db, Apply(db, DeleteLine(slot)), slot);
    }
  }

  /** The calendar and the document registry may change in any way that strands no entry's reference. */
  lemma RegistryWritesExactly(db: Db, periods: map<PeriodId, Period>, documents: map<DocumentId, nat>)
    requires Integral(db)
    ensures Permitted(db, SetPeriods(periods)) <==> forall id :: id in db.entries && db.entries[id].period.Some? ==>
      var p := db.entries[id].period.value; p in periods && periods[p].tenant == db.entries[id].tenant
    ensures Permitted(db, SetDocuments(documents)) <==> forall id :: id in db.entries ==>
      db.entries[id].document in documents && documents[db.entries[id].document] == db.entries[id].tenant
  {
    var a, b := Apply(db, SetPeriods(periods)), Apply(db, SetDocuments(documents));
    forall id | id in db.entries
      ensures ReferencesResolve(a, db.entries[id]) <==>
        (db.entries[id].period.Some? ==>
           var p := db.entries[id].period.value; p in periods && periods[p].tenant == db.entries[id].tenant)
      ensures ReferencesResolve(b, db.entries[id]) <==>
        db.entries[id].document in documents && documents[db.entries[id].document] == db.entries[id].tenant
    {
      assert ReferencesResolve(db, db.entries[id]);
    }
    forall i | 0 <= i < |db.lines| ensures LineHolds(a, db.lines[i]) && LineHolds(b, db.lines[i]) {
      assert LineHolds(db, db.lines[i]);
    }
  }

  lemma OneLineChanged(db: Db, db': Db, slot: LineId)
    requires Integral(db) && db' == db.(lines := db'.lines) && slot < |db'.lines| && slot <= |db.lines|
    requires db'.lines[..slot] == db.lines[..slot] && (slot < |db.lines| ==> db'.lines[slot + 1..] == db.lines[slot + 1..])
    requires slot == |db.lines| ==> |db'.lines| == slot + 1
    ensures Integral(db') <==> (db'.lines[slot].Some? ==> LineFits(db, db'.lines[slot].value))
  {
    forall e ensures ReferencesResolve(db', e) <==> ReferencesResolve(db, e) { }
    forall i | 0 <= i < |db'.lines| && i != slot ensures LineHolds(db', db'.lines[i]) {
      if i < slot {
        assert db'.lines[i] == db'.lines[..slot][i] == db.lines[i];
      } else {
        assert db'.lines[i] == db'.lines[slot + 1..][i - slot - 1] == db.lines[i];
      }
      assert LineHolds(db, db.lines[i]);
    }
    assert LineHolds(db', db'.lines[slot]) <==> (db'.lines[slot].Some? ==> LineFits(db, db'.lines[slot].value));
  }

  /** A POSTED header may only become REVERSED with a reversing entry, keeping date, currency and
      type; but number and period are kept only when both sides are non-NULL. Beyond that, the keys
      and references must hold. */
  lemma PostedUpdateExactly(db: Db, id: EntryId, now: Entry)
    requires Integral(db) && id in db.entries && db.entries[id].status == POSTED
    ensures var was := db.entries[id];
      Permitted(db, UpdateEntry(id, now)) <==>
        && now.status == REVERSED && now.reversedBy.Some?
        && now.postingDate == was.postingDate && now.currency == was.currency && now.documentType == was.documentType
        && (now.number == was.number || now.number.None? || was.number.None?)
        && (now.period == was.period || now.period.None? || was.period.None?)
        && UpdateIntegral(db, id, now)
  {
    UpdateIntegralExact(db, id, now);
  }

  /** So a reversal by any entry of the tenant can erase the number and period, although the guard is
      documented to permit no financial column to change. */
  lemma NullSlipsPastTheGuard(db: Db, id: EntryId, reversal: EntryId)
    requires Integral(db) && id in db.entries && db.entries[id].status == POSTED
    requires Owned(db, db.entries[id].tenant, reversal)
    ensures Permitted(db, UpdateEntry(id, Erased(db.entries[id], reversal)))
  {
    PostedUpdateExactly(db, id, Erased(db.entries[id], reversal));
  }

  function Erased(e: Entry, reversal: EntryId): Entry {
    e.(status := REVERSED, reversedBy := Some(reversal), number := None, period := None)
  }

  // ---- Conservation -----------------------------------------------------------------------

  ghost predicate Balanced(db: Db, id: EntryId) {
    Sum(db.lines, EntryDebit(id)) == Sum(db.lines, EntryCredit(id)) > 0
  }

  /** A line is marked posted exactly when its entry has left DRAFT. */
  ghost predicate LineGood(db: Db, i: LineId) {
    HasLine(db, i) ==>
      var l := db.lines[i].value;
      l.entry in db.entries && (l.posted <==> db.entries[l.entry].status != DRAFT)
  }

  ghost predicate Good(db: Db) {
    && Integral(db)
    && (forall id :: id in db.entries && db.entries[id].status != DRAFT ==> Balanced(db, id))
    && (forall i: nat :: LineGood(db, i))
    && Sum(db.lines, PostedDebit) == Sum(db.lines, PostedCredit)
  }

  predicate StatusKept(was: Status, now: Status) {
    was == now || was == DRAFT || (was == POSTED && now == REVERSED)
  }

  /** Entries that left DRAFT stay, only moving POSTED -> REVERSED, and their lines are untouched: none
      changed, removed or added. */
  ghost predicate Frozen(db: Db, db': Db) {
    && (forall id :: id in db.entries && db.entries[id].status != DRAFT ==>
          id in db'.entries && StatusKept(db.entries[id].status, db'.entries[id].status))
    && (forall i: nat :: HasLine(db, i) && db.lines[i].value.posted ==> HasLine(db', i) && db'.lines[i] == db.lines[i])
    && (forall i: nat :: HasLine(db', i) && SettledIn(db, db'.lines[i].value.entry) ==>
      HasLine(db, i) && db.lines[i] == db'.lines[i])
  }

  predicate SettledIn(db: Db, id: EntryId) {
    id in db.entries && db.entries[id].status != DRAFT
  }

  /** What the triggers leave to the application. */
  predicate Disciplined(db: Db, w: Write)
    requires Permitted(db, w)
  {
    match w
    case InsertEntry(id, e) => e.status == DRAFT
    case UpdateEntry(id, e) => db.entries[id].status == POSTED || e.status == db.entries[id].status
    case InsertLine(l) => !SettledIn(db, l.entry) && !l.posted
    case UpdateLine(slot, l) => !SettledIn(db, l.entry) && !l.posted
    case _ => true
  }

  lemma {:induction false} SumUpdate(lines: seq<Option<Line>>, i: nat, x: Option<Line>, m: Measure)
    requires i < |lines|
    ensures Sum(lines[i := x], m) == Sum(lines, m) - Amount(lines[i], m) + Amount(x, m)
  {
    var n, t := |lines| - 1, lines[i := x];
    if i == n {
      assert t[..n] == lines[..n];
    } else {
      SumUpdate(lines[..n], i, x, m);
      assert t[..n] == lines[..n][i := x];
    }
  }

  lemma SumAppend(lines: seq<Option<Line>>, x: Option<Line>, m: Measure)
    ensures Sum(lines + [x], m) == Sum(lines, m) + Amount(x, m)
  {
    assert (lines + [x])[..|lines|] == lines;
  }

  lemma {:induction false} SumNoLines(lines: seq<Option<Line>>, e: EntryId)
    requires forall i :: 0 <= i < |lines| ==> lines[i].None? || lines[i].value.entry != e
    ensures Sum(lines, EntryDebit(e)) == 0
  {
    if lines != [] {
      SumNoLines(lines[..|lines| - 1], e);
    }
  }

  /** A positive debit sum needs a line. */
  lemma SomeLine(lines: seq<Option<Line>>, e: EntryId) returns (i: nat)
    requires Sum(lines, EntryDebit(e)) > 0
    ensures i < |lines| && lines[i].Some? && lines[i].value.entry == e
  {
    if forall k :: 0 <= k < |lines| ==> lines[k].None? || lines[k].value.entry != e {
      SumNoLines(lines, e);
    }
    i :| 0 <= i < |lines| && lines[i].Some? && lines[i].value.entry == e;
  }

  /** Flipping keeps every entry's sums and moves exactly that entry's amounts into the posted sums. */
  lemma {:induction false} SumFlip(lines: seq<Option<Line>>, e: EntryId, m: Measure)
    requires forall i :: 0 <= i < |lines| && lines[i].Some? && lines[i].value.entry == e ==> !lines[i].value.posted
    ensures Sum(Flip(lines, e), m) == Sum(lines, m) +
      match m case PostedDebit => Sum(lines, EntryDebit(e)) case PostedCredit => Sum(lines, EntryCredit(e)) case _ => 0
  {
    if lines != [] {
      var n := |lines| - 1;
      SumFlip(lines[..n], e, m);
      assert Flip(lines, e)[..n] == Flip(lines[..n], e);
    }
  }

  /** How one line slot's change moves a sum. */
  lemma SlotChange(db: Db, w: Write, m: Measure)
    requires Permitted(db, w)
    ensures w.InsertLine? ==> Sum(Apply(db, w).lines, m) == Sum(db.lines, m) + Amount(Some(w.line), m)
    ensures w.UpdateLine? ==>
      Sum(Apply(db, w).lines, m) == Sum(db.lines, m) - Amount(db.lines[w.slot], m) + Amount(Some(w.line), m)
    ensures w.DeleteLine? ==> Sum(Apply(db, w).lines, m) == Sum(db.lines, m) - Amount(db.lines[w.slot], m)
  {
    match w
    case InsertLine(l) => SumAppend(db.lines, Some(l), m);
    case UpdateLine(slot, l) => SumUpdate(db.lines, slot, Some(l), m);
    case DeleteLine(slot) => SumUpdate(db.lines, slot, None, m);
    case _ =>
  }

  lemma DraftLinesUnposted(db: Db, id: EntryId)
    requires Good(db) && id in db.entries && db.entries[id].status == DRAFT
    ensures forall i :: 0 <= i < |db.lines| && db.lines[i].Some? && db.lines[i].value.entry == id ==>
      !db.lines[i].value.posted
  {
    forall i | 0 <= i < |db.lines| && db.lines[i].Some? && db.lines[i].value.entry == id
      ensures !db.lines[i].value.posted {
      assert LineGood(db, i);
    }
  }

  lemma PostBalances(db: Db, p: EntryId, e: Entry, id: EntryId)
    requires Good(db) && Permitted(db, Post(p, e))
    requires id == p || (id in db.entries && db.entries[id].status != DRAFT)
    ensures Balanced(Apply(db, Post(p, e)), id)
  {
    UnbalancedSums(db, p);
    DraftLinesUnposted(db, p);
    SumFlip(db.lines, p, EntryDebit(id));
    SumFlip(db.lines, p, EntryCredit(id));
  }

  lemma LineWriteBalances(db: Db, w: Write, id: EntryId)
    requires Good(db) && Permitted(db, w) && Disciplined(db, w) && (w.InsertLine? || w.UpdateLine? || w.DeleteLine?)
    requires SettledIn(db, id)
    ensures Balanced(Apply(db, w), id)
  {
    if !w.InsertLine? { assert LineGood(db, w.slot); }
    SlotChange(db, w, EntryDebit(id));
    SlotChange(db, w, EntryCredit(id));
  }

  lemma KeepBalanced(db: Db, w: Write, id: EntryId)
    requires Good(db) && Permitted(db, w) && Disciplined(db, w)
    requires SettledIn(Apply(db, w), id)
    ensures Balanced(Apply(db, w), id)
  {
    if w.Post? {
      PostBalances(db, w.id, w.entry, id);
    } else if w.InsertLine? || w.UpdateLine? || w.DeleteLine? {
      LineWriteBalances(db, w, id);
    }
  }

  lemma KeepPostedSums(db: Db, w: Write)
    requires Good(db) && Permitted(db, w) && Disciplined(db, w)
    ensures Sum(Apply(db, w).lines, PostedDebit) == Sum(Apply(db, w).lines, PostedCredit)
  {
    SlotChange(db, w, PostedDebit);
    SlotChange(db, w, PostedCredit);
    if w.Post? {
      UnbalancedSums(db, w.id);
      DraftLinesUnposted(db, w.id);
      SumFlip(db.lines, w.id, PostedDebit);
      SumFlip(db.lines, w.id, PostedCredit);
    }
  }

  lemma KeepLine(db: Db, w: Write, i: LineId)
    requires Good(db) && Permitted(db, w) && Disciplined(db, w)
    ensures LineGood(Apply(db, w), i)
  {
    assert LineGood(db, i);
  }

  lemma DisciplinedIsSafe(db: Db, w: Write)
    requires Good(db) && Permitted(db, w) && Disciplined(db, w)
    ensures Good(Apply(db, w)) && Frozen(db, Apply(db, w))
  {
    var db' := Apply(db, w);
    forall id | id in db'.entries && db'.entries[id].status != DRAFT
      ensures Balanced(db', id) { KeepBalanced(db, w, id); }
    forall i: nat ensures LineGood(db', i) { KeepLine(db, w, i); }
    KeepPostedSums(db, w);
    FrozenStep(db, w);
  }

  lemma PostedLineStands(db: Db, w: Write, i: LineId)
    requires Good(db) && Permitted(db, w) && Disciplined(db, w) && HasLine(db, i) && db.lines[i].value.posted
    ensures HasLine(Apply(db, w), i) && Apply(db, w).lines[i] == db.lines[i]
  {
    assert LineGood(db, i);
  }

  lemma SettledGainsNoLine(db: Db, w: Write, i: LineId)
    requires Good(db) && Permitted(db, w) && Disciplined(db, w)
    requires HasLine(Apply(db, w), i) && SettledIn(db, Apply(db, w).lines[i].value.entry)
    ensures HasLine(db, i) && db.lines[i] == Apply(db, w).lines[i]
  {
    assert LineGood(db, i);
  }

  lemma FrozenStep(db: Db, w: Write)
    requires Good(db) && Permitted(db, w) && Disciplined(db, w)
    ensures Frozen(db, Apply(db, w))
  {
    var db' := Apply(db, w);
    forall i: nat | HasLine(db, i) && db.lines[i].value.posted ensures HasLine(db', i) && db'.lines[i] == db.lines[i] {
      PostedLineStands(db, w, i);
    }
    forall i: nat | HasLine(db', i) && SettledIn(db, db'.lines[i].value.entry)
      ensures HasLine(db, i) && db.lines[i] == db'.lines[i] {
      SettledGainsNoLine(db, w, i);
    }
  }

  lemma UndisciplinedIsUnsafe(db: Db, w: Write)
    requires Good(db) && Permitted(db, w) && !Disciplined(db, w)
    ensures !(Good(Apply(db, w)) && Frozen(db, Apply(db, w)))
  {
    var db' := Apply(db, w);
    match w {
      case InsertEntry(id, e) =>
        forall i | 0 <= i < |db.lines| ensures db.lines[i].None? || db.lines[i].value.entry != id {
          assert LineGood(db, i);
        }
        SumNoLines(db.lines, id);
        assert !Balanced(db', id);
      case UpdateEntry(id, e) =>
        if db.entries[id].status == DRAFT && Balanced(db', id) {
          var i := SomeLine(db.lines, id);
          assert LineGood(db, i);
          assert !LineGood(db', i);
        }
      case InsertLine(l) =>
        var i := |db.lines|;
        assert HasLine(db', i) && !HasLine(db, i);
        assert LineGood(db', i) ==> SettledIn(db, l.entry);
      case UpdateLine(slot, l) =>
        assert LineGood(db, slot) && HasLine(db', slot);
        assert LineGood(db', slot) ==> SettledIn(db, l.entry);
    }
  }

  /** A permitted write keeps the books conserved and frozen if and only if it is disciplined: entries
      are inserted as DRAFT, DRAFT leaves only by the posting transaction, REVERSED stays, and lines are
      added or edited unposted under DRAFT entries. Each clause is needed. */
  lemma SafeIffDisciplined(db: Db, w: Write)
    requires Good(db) && Permitted(db, w)
    ensures Good(Apply(db, w)) && Frozen(db, Apply(db, w)) <==> Disciplined(db, w)
  {
    if Disciplined(db, w) {
      DisciplinedIsSafe(db, w);
    } else {
      UndisciplinedIsUnsafe(db, w);
    }
  }

  // ---- Runs -------------------------------------------------------------------------------

  /** A run of permitted writes. */
  predicate Run(db: Db, writes: seq<Write>)
    decreases |writes|
  {
    writes == [] || (Permitted(db, writes[0]) && Run(Apply(db, writes[0]), writes[1..]))
  }

  function After(db: Db, writes: seq<Write>): Db
    requires Run(db, writes)
    decreases |writes|
  {
    if writes == [] then db else After(Apply(db, writes[0]), writes[1..])
  }

  predicate AllDisciplined(db: Db, writes: seq<Write>)
    requires Run(db, writes)
    decreases |writes|
  {
    writes == [] || (Disciplined(db, writes[0]) && AllDisciplined(Apply(db, writes[0]), writes[1..]))
  }

  lemma FrozenTransitive(a: Db, b: Db, c: Db)
    requires Frozen(a, b) && Frozen(b, c)
    ensures Frozen(a, c)
  {
    forall i: nat | HasLine(c, i) && SettledIn(a, c.lines[i].value.entry)
      ensures HasLine(a, i) && a.lines[i] == c.lines[i] {
      assert SettledIn(b, c.lines[i].value.entry);
      assert HasLine(b, i) && b.lines[i] == c.lines[i];
    }
  }

  /** Journal conservation over every run of permitted, disciplined writes: settled entries stay
      balanced and positive, their lines never change, vanish or grow in number, POSTED leaves only to
      REVERSED, and all posted debits equal all posted credits. */
  lemma {:induction false} JournalConservation(db: Db, writes: seq<Write>)
    requires Good(db) && Run(db, writes) && AllDisciplined(db, writes)
    ensures Good(After(db, writes)) && Frozen(db, After(db, writes))
    ensures PostedBalance(After(db, writes).lines) == 0
    ensures forall id :: SettledIn(After(db, writes), id) ==>
      Debits(After(db, writes).lines, id) == Credits(After(db, writes).lines, id) > 0
    decreases |writes|
  {
    if writes == [] {
      forall id | SettledIn(db, id) ensures Debits(db.lines, id) == Credits(db.lines, id) > 0 {
        SumsMean(db.lines, id);
      }
      SumsMean(db.lines, 0);
    } else {
      var next := Apply(db, writes[0]);
      DisciplinedIsSafe(db, writes[0]);
      JournalConservation(next, writes[1..]);
      FrozenTransitive(db, next, After(db, writes));
    }
  }

  // ---- Posting dates ----------------------------------------------------------------------

  /** At some moment of the run an open period of e's tenant contained its posting date. */
  predicate WasCovered(db: Db, writes: seq<Write>, e: Entry)
    requires Run(db, writes)
    decreases |writes|
  {
    writes != [] && (OpenOn(db, e.tenant, e.postingDate) || WasCovered(Apply(db, writes[0]), writes[1..], e))
  }

  predicate PostedAs(db: Db, id: EntryId, e: Entry) {
    id in db.entries && db.entries[id] == e && e.status == POSTED
  }

  /** Over every run of permitted writes, disciplined or not and with the calendar changing at will:
      an entry that is POSTED at the end was the same POSTED row at the start, or a period of its tenant
      covering its posting date was open at some moment in between. */
  lemma {:induction false} PostingNeedsOpenPeriod(db: Db, writes: seq<Write>, id: EntryId, e: Entry)
    requires Run(db, writes) && PostedAs(After(db, writes), id, e)
    ensures PostedAs(db, id, e) || WasCovered(db, writes, e)
    decreases |writes|
  {
    if writes != [] {
      CoversMeans(db, e);
      PostingNeedsOpenPeriod(Apply(db, writes[0]), writes[1..], id, e);
    }
  }

  // ---- The tables -------------------------------------------------------------------------

  /** The entry is e, all its lines are marked posted, and nothing else changed. */
  ghost predicate Posted(was: Db, id: EntryId, e: Entry, now: Db) {
    && now == was.(entries := was.entries[id := e], lines := now.lines) && |now.lines| == |was.lines|
    && forall i :: 0 <= i < |was.lines| ==>
      now.lines[i] ==
        if was.lines[i].Some? && was.lines[i].value.entry == id then Some(was.lines[i].value.(posted := true))
        else was.lines[i]
  }

  class Ledger {
    var db: Db

    constructor (periods: map<PeriodId, Period>, documents: map<DocumentId, nat>)
      ensures db == Db(map[], [], periods, documents) && Good(db)
    {
      db := Db(map[], [], periods, documents);
    }

    /** Run one write; a guard that raises aborts it. */
    method Execute(w: Write) returns (accepted: bool)
      modifies this
      ensures accepted == Permitted(old(db), w)
      ensures db == if accepted then Apply(old(db), w) else old(db)
      ensures accepted ==>
        match w
        case InsertEntry(id, e) => db == old(db).(entries := old(db).entries[id := e])
        case UpdateEntry(id, e) => db == old(db).(entries := old(db).entries[id := e])
        case DeleteEntry(id) => db == old(db).(entries := old(db).entries - {id})
        case InsertLine(l) => db == old(db).(lines := old(db).lines + [Some(l)])
        case UpdateLine(slot, l) => db == old(db).(lines := old(db).lines[slot := Some(l)])
        case DeleteLine(slot) => db == old(db).(lines := old(db).lines[slot := None])
        case Post(id, e) => Posted(old(db), id, e, db)
        case SetPeriods(periods) => db == old(db).(periods := periods)
        case SetDocuments(documents) => db == old(db).(documents := documents)
      ensures accepted && old(Good(db)) ==> (Disciplined(old(db), w) <==> Good(db) && Frozen(old(db), db))
    {
      accepted := Permitted(db, w);
      if accepted {
        if Good(db) { SafeIffDisciplined(db, w); }
        db := Apply(db, w);
      }
    }
  }
}
