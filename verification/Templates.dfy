/** Form templates (src/models.rs, src/db.rs): every creation form has at most one default. */
module Templates {
  import opened Wrappers
  import opened Texts

  datatype Scope = Both | Ca | Certificate

  function ParseScope(value: string): Option<Scope> {
    var text := Trim(value);
    if text == "both" then Some(Both)
    else if text == "ca" then Some(Ca)
    else if text == "certificate" then Some(Certificate)
    else None
  }

  function ScopeName(scope: Scope): string {
    match scope
    case Both => "both"
    case Ca => "ca"
    case Certificate => "certificate"
  }

  lemma ScopeNameParses(scope: Scope)
    ensures ParseScope(ScopeName(scope)) == Some(scope)
  {
    hide Trim;
    match scope
    case Both => AlreadyTrimmed("both");
    case Ca => AlreadyTrimmed("ca");
    case Certificate => AlreadyTrimmed("certificate");
  }

  /** Unknown scopes in stored rows count as both. */
  function ScopeOf(text: string): Scope {
    match ParseScope(text)
    case Some(scope) => scope
    case None => Both
  }

  lemma ScopeExactly(text: string)
    ensures ScopeOf(text) == Ca <==> Trim(text) == "ca"
    ensures ScopeOf(text) == Certificate <==> Trim(text) == "certificate"
  {
    hide Trim;
  }

  /** Whether a template with this scope is offered on the form for `kind`. */
  predicate Covers(scope: Scope, kind: Scope) {
    scope == Both || scope == kind
  }

  predicate Overlaps(a: Scope, b: Scope) {
    a == Both || b == Both || a == b
  }

  predicate IsForm(kind: Scope) {
    kind == Ca || kind == Certificate
  }

  /** Two scopes overlap exactly when some form is covered by both. */
  lemma OverlapIsSharedForm(a: Scope, b: Scope)
    ensures Overlaps(a, b) <==> exists kind :: IsForm(kind) && Covers(a, kind) && Covers(b, kind)
  {
    var form := if a == Both then (if b == Both then Ca else b) else a;
    assert IsForm(form);
    assert Overlaps(a, b) ==> Covers(a, form) && Covers(b, form);
  }

  datatype Values = Values(
    countryCode: Option<string>, state: Option<string>, city: Option<string>, organization: Option<string>,
    organizationUnit: Option<string>, validDays: Option<int>, digestAlgorithm: Option<string>,
    keyProfile: Option<string>)

  datatype Template = Template(
    id: string, name: string, scopeText: string, isDefault: bool, values: Values, createdAt: int, updatedAt: int)
  {
    function Scope(): Scope {
      ScopeOf(scopeText)
    }
  }

  type Rows = map<string, Template>

  datatype SaveError = NameExists | NotFound

  /** Another row already has this name, ignoring ASCII case. */
  predicate NameTaken(rows: Rows, name: string, exceptId: string) {
    exists id :: id in rows && id != exceptId && Lower(rows[id].name) == Lower(name)
  }

  /** The default flag is cleared on every other template whose scope overlaps. */
  function ClearOthers(rows: Rows, t: Template): (r: Rows)
    ensures r.Keys == rows.Keys
  {
    map id | id in rows ::
      if id != t.id && rows[id].isDefault && Overlaps(rows[id].Scope(), t.Scope())
      then rows[id].(isDefault := false, updatedAt := t.updatedAt) else rows[id]
  }

  function Save(rows: Rows, t: Template, isNew: bool): Result<Rows, SaveError> {
    var cleared := if t.isDefault then ClearOthers(rows, t) else rows;
    if isNew then
      if t.id in rows || NameTaken(rows, t.name, t.id) then Err(NameExists) else Ok(cleared[t.id := t])
    else if t.id !in rows then Err(NotFound)
    else if NameTaken(rows, t.name, t.id) then Err(NameExists)
    else Ok(cleared[t.id := t.(createdAt := rows[t.id].createdAt)])
  }

  function Delete(rows: Rows, id: string): Result<Rows, SaveError> {
    if id in rows then Ok(rows - {id}) else Err(NotFound)
  }

  /** The table after a save: the whole template under its id, and other defaults cleared where a form is shared. */
  ghost predicate Saved(before: Rows, after: Rows, t: Template, isNew: bool) {
    && after.Keys == before.Keys + {t.id} && (isNew <==> t.id !in before)
    && after[t.id] == Template(t.id, t.name, t.scopeText, t.isDefault, t.values,
                               if isNew then t.createdAt else before[t.id].createdAt, t.updatedAt)
    && (forall id :: id in before && id != t.id ==>
          after[id] == if t.isDefault && before[id].isDefault && SharesForm(before[id], t)
                       then before[id].(isDefault := false, updatedAt := t.updatedAt) else before[id])
  }

  ghost predicate SharesForm(a: Template, b: Template) {
    exists kind :: IsForm(kind) && Covers(a.Scope(), kind) && Covers(b.Scope(), kind)
  }

  lemma SaveExactly(rows: Rows, t: Template, isNew: bool)
    ensures var r := Save(rows, t, isNew);
      && (r.Ok? <==> (isNew <==> t.id !in rows)
                     && forall id :: id in rows && id != t.id ==> Lower(rows[id].name) != Lower(t.name))
      && (r == Err(NotFound) <==> !isNew && t.id !in rows)
      && (r.Ok? ==> Saved(rows, r.value, t, isNew))
  {
    hide Lower, ScopeOf, Overlaps, Covers;
    forall id | id in rows ensures SharesForm(rows[id], t) <==> Overlaps(rows[id].Scope(), t.Scope()) {
      OverlapIsSharedForm(rows[id].Scope(), t.Scope());
    }
  }

  class Table {
    var rows: Rows

    constructor ()
      ensures rows == map[]
    {
      rows := map[];
    }

    /** The loop that clears the default flag of other templates, inside the transaction. */
    method ClearedDefaults(t: Template) returns (tx: Rows)
      ensures tx == if t.isDefault then ClearOthers(rows, t) else rows
    {
      tx := rows;
      if t.isDefault {
        var todo := rows.Keys;
        while todo != {}
          invariant todo <= rows.Keys && tx.Keys == rows.Keys
          invariant forall id :: id in rows ==>
            tx[id] == if id in todo then rows[id] else ClearOthers(rows, t)[id]
          decreases todo
        {
          var id :| id in todo;
          var other := rows[id];
          if id != t.id && other.isDefault && Overlaps(other.Scope(), t.Scope()) {
            tx := tx[id := other.(isDefault := false, updatedAt := t.updatedAt)];
          }
          todo := todo - {id};
        }
        assert tx == ClearOthers(rows, t);
      }
    }

    /** One transaction: a failure anywhere leaves the table as it was. */
    method SaveTemplate(t: Template, isNew: bool) returns (r: Result<(), SaveError>)
      modifies this
      ensures match Save(old(rows), t, isNew)
        case Ok(after) => r.Ok? && rows == after
        case Err(e) => r == Err(e) && rows == old(rows)
      ensures r.Ok? <==> (isNew <==> t.id !in old(rows))
                         && forall id :: id in old(rows) && id != t.id ==> Lower(old(rows)[id].name) != Lower(t.name)
      ensures r.Ok? ==> Saved(old(rows), rows, t, isNew)
    {
      SaveExactly(rows, t, isNew);
      hide Saved, Lower, NameTaken;
      var tx := ClearedDefaults(t);
      if isNew {
        if t.id in tx || NameTaken(rows, t.name, t.id) {
          return Err(NameExists);
        }
        tx := tx[t.id := t];
      } else {
        if t.id !in tx {
          return Err(NotFound);
        }
        if NameTaken(rows, t.name, t.id) {
          return Err(NameExists);
        }
        tx := tx[t.id := t.(createdAt := tx[t.id].createdAt)];
      }
      rows := tx;
      return Ok(());
    }

    method DeleteTemplate(id: string) returns (r: Result<(), SaveError>)
      modifies this
      ensures match Delete(old(rows), id)
        case Ok(after) => r.Ok? && rows == after
        case Err(e) => r == Err(e) && rows == old(rows)
      ensures (r.Ok? <==> id in old(rows)) && id !in rows
      ensures forall other :: other != id ==>
        (other in rows <==> other in old(rows)) && (other in rows ==> rows[other] == old(rows)[other])
    {
      if id !in rows {
        return Err(NotFound);
      }
      rows := rows - {id};
      return Ok(());
    }
  }

  // ----- any run -----

  datatype Op = SaveOp(template: Template, isNew: bool) | DeleteOp(id: string)

  function Apply(rows: Rows, op: Op): Rows {
    var r := match op
      case SaveOp(t, isNew) => Save(rows, t, isNew)
      case DeleteOp(id) => Delete(rows, id);
    if r.Ok? then r.value else rows
  }

  function Exec(ops: seq<Op>): Rows {
    if ops == [] then map[] else Apply(Exec(ops[..|ops| - 1]), ops[|ops| - 1])
  }

  ghost predicate DefaultsDisjoint(rows: Rows) {
    forall a, b :: a in rows && b in rows && a != b && rows[a].isDefault && rows[b].isDefault ==>
      !Overlaps(rows[a].Scope(), rows[b].Scope())
  }

  ghost predicate RowsOk(rows: Rows) {
    && (forall id :: id in rows ==> rows[id].id == id)
    && (forall a, b :: a in rows && b in rows && a != b ==> Lower(rows[a].name) != Lower(rows[b].name))
    && DefaultsDisjoint(rows)
  }

  /** What a save leaves in each row. */
  lemma SavedRow(rows: Rows, t: Template, isNew: bool, id: string)
    requires Save(rows, t, isNew).Ok? && id in Save(rows, t, isNew).value
    ensures var row := Save(rows, t, isNew).value[id];
      if id == t.id
      then row.name == t.name && row.scopeText == t.scopeText && row.isDefault == t.isDefault && row.id == t.id
      else
        && id in rows && row.id == rows[id].id && row.name == rows[id].name && row.scopeText == rows[id].scopeText
        && row.isDefault == (rows[id].isDefault && !(t.isDefault && Overlaps(rows[id].Scope(), t.Scope())))
  {
    hide NameTaken, ScopeOf;
  }

  lemma SaveNeedsName(rows: Rows, t: Template, isNew: bool)
    requires Save(rows, t, isNew).Ok?
    ensures !NameTaken(rows, t.name, t.id)
  {
    hide NameTaken;
  }

  lemma SaveKeepsRows(rows: Rows, t: Template, isNew: bool)
    requires RowsOk(rows) && Save(rows, t, isNew).Ok?
    ensures RowsOk(Save(rows, t, isNew).value)
  {
    hide Lower, ScopeOf, Save, Overlaps;
    var after := Save(rows, t, isNew).value;
    SaveNeedsName(rows, t, isNew);
    OverlapsIsSymmetric();
    forall a, b | a in after && b in after && a != b
      ensures Lower(after[a].name) != Lower(after[b].name)
      ensures after[a].isDefault && after[b].isDefault ==> !Overlaps(after[a].Scope(), after[b].Scope())
    {
      SavedRow(rows, t, isNew, a);
      SavedRow(rows, t, isNew, b);
    }
    forall id | id in after ensures after[id].id == id {
      SavedRow(rows, t, isNew, id);
    }
  }

  lemma OverlapsIsSymmetric()
    ensures forall a, b :: Overlaps(a, b) ==> Overlaps(b, a)
  {
  }

  lemma {:induction false} ExecKeepsRows(ops: seq<Op>)
    ensures RowsOk(Exec(ops))
  {
    hide RowsOk, Save;
    if ops == [] {
      EmptyIsOk();
    } else {
      var rows := Exec(ops[..|ops| - 1]);
      ExecKeepsRows(ops[..|ops| - 1]);
      match ops[|ops| - 1] {
        case SaveOp(t, isNew) =>
          if Save(rows, t, isNew).Ok? {
            SaveKeepsRows(rows, t, isNew);
          }
        case DeleteOp(id) =>
          DeleteKeepsRows(rows, id);
      }
    }
  }

  lemma EmptyIsOk()
    ensures RowsOk(map[])
  {
  }

  lemma DeleteKeepsRows(rows: Rows, id: string)
    requires RowsOk(rows)
    ensures RowsOk(rows - {id})
  {
    hide Lower, ScopeOf;
  }

  /** After any run of saves and deletes, each creation form has at most one default template. */
  lemma OneDefaultPerForm(ops: seq<Op>, kind: Scope, a: string, b: string)
    requires IsForm(kind)
    requires a in Exec(ops) && Exec(ops)[a].isDefault && Covers(Exec(ops)[a].Scope(), kind)
    requires b in Exec(ops) && Exec(ops)[b].isDefault && Covers(Exec(ops)[b].Scope(), kind)
    ensures a == b
  {
    var rows := Exec(ops);
    ExecKeepsRows(ops);
    OverlapIsSharedForm(rows[a].Scope(), rows[b].Scope());
  }

  /** Saving a default makes it the default of every form it covers, and leaves the other forms' defaults alone. */
  lemma SavedDefaultWins(rows: Rows, t: Template, isNew: bool, id: string)
    requires Save(rows, t, isNew).Ok? && t.isDefault
    ensures var after := Save(rows, t, isNew).value;
      && t.id in after && after[t.id].isDefault && after[t.id].Scope() == t.Scope()
      && (id in rows && id != t.id ==>
            id in after && (after[id].isDefault <==> rows[id].isDefault && !Overlaps(rows[id].Scope(), t.Scope())))
  {
  }

  /** After any run that ends with saving a default, that template is the only default of every form it covers. */
  lemma LatestDefaultWins(ops: seq<Op>, t: Template, isNew: bool, kind: Scope, id: string)
    requires Save(Exec(ops), t, isNew).Ok? && t.isDefault && IsForm(kind) && Covers(t.Scope(), kind)
    ensures var rows := Exec(ops + [SaveOp(t, isNew)]);
      id in rows && rows[id].isDefault && Covers(rows[id].Scope(), kind) <==> id == t.id
  {
    hide Save, ScopeOf;
    assert (ops + [SaveOp(t, isNew)])[..|ops|] == ops;
    var rows := Exec(ops + [SaveOp(t, isNew)]);
    SavedDefaultWins(Exec(ops), t, isNew, t.id);
    if id in rows && rows[id].isDefault && Covers(rows[id].Scope(), kind) {
      OneDefaultPerForm(ops + [SaveOp(t, isNew)], kind, id, t.id);
    }
  }
}
