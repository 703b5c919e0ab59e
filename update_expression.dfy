/**
 * The update-expression builder loop that lambda/utilities/channelsClient.ts,
 * lambda/utilities/reactionsClient.ts and lambda/updatePost.ts each write out:
 * walk a record's attribute names in order, skip the key attribute, and
 * append `#a = :a` to the expression while filling the name and value maps.
 */
module UpdateExpression {
  import opened Wrappers

  /** What an expression value placeholder is bound to. */
  datatype Value =
    | Field(attribute: string)   // the record's own value of that attribute
    | Bound(value: string)       // a value fixed before the loop runs

  /** The maps a request starts with, when it initialises them at all. */
  datatype Maps = Maps(names: map<string, string>, values: map<string, Value>)

  /** The built parameters: the expression and both placeholder maps. */
  datatype Params = Params(expression: string, names: map<string, string>, values: map<string, Value>)

  /** The assignment an attribute contributes to the expression. */
  function Clause(a: string): string {
    "#" + a + " = :" + a
  }

  /** The assignments in attribute order, one per attribute other than the key. */
  function Clauses(attributes: seq<string>, keyAttribute: string): seq<string>
    decreases |attributes|
  {
    if attributes == [] then []
    else
      var a := attributes[|attributes| - 1];
      Clauses(attributes[..|attributes| - 1], keyAttribute) + (if a == keyAttribute then [] else [Clause(a)])
  }

  /** `parts` separated by `sep`. */
  function Join(parts: seq<string>, sep: string): string
    decreases |parts|
  {
    if |parts| == 0 then ""
    else if |parts| == 1 then parts[0]
    else Join(parts[..|parts| - 1], sep) + sep + parts[|parts| - 1]
  }

  /** The expression the loop is meant to produce: `set ` and the joined assignments, or nothing. */
  function Expression(attributes: seq<string>, keyAttribute: string): string {
    var cs := Clauses(attributes, keyAttribute);
    if cs == [] then "" else "set " + Join(cs, ", ")
  }

  /** The name map after the loop: the initial names plus `#a -> a` per non-key attribute. */
  function Names(base: map<string, string>, attributes: seq<string>, keyAttribute: string): map<string, string>
    decreases |attributes|
  {
    if attributes == [] then base
    else
      var a := attributes[|attributes| - 1];
      var m := Names(base, attributes[..|attributes| - 1], keyAttribute);
      if a == keyAttribute then m else m["#" + a := a]
  }

  /** The value map after the loop: the initial values plus `:a -> a's value` per non-key attribute. */
  function Values(base: map<string, Value>, attributes: seq<string>, keyAttribute: string): map<string, Value>
    decreases |attributes|
  {
    if attributes == [] then base
    else
      var a := attributes[|attributes| - 1];
      var m := Values(base, attributes[..|attributes| - 1], keyAttribute);
      if a == keyAttribute then m else m[":" + a := Field(a)]
  }

  /** The maps a request starts from; an uninitialised map is read as empty. */
  function BaseNames(initial: Option<Maps>): map<string, string> {
    match initial
    case Some(m) => m.names
    case None => map[]
  }

  function BaseValues(initial: Option<Maps>): map<string, Value> {
    match initial
    case Some(m) => m.values
    case None => map[]
  }

  /**
   * Runs the builder loop. With uninitialised maps (`initial` None) the first
   * assignment into the value map fails, so the build fails exactly when
   * some attribute other than the key is present. Otherwise the expression
   * and both maps are the ones defined above.
   */
  method Build(attributes: seq<string>, keyAttribute: string, initial: Option<Maps>)
    returns (r: Result<Params, string>)
    ensures r.Err? <==> initial.None? && Clauses(attributes, keyAttribute) != []
    ensures r.Ok? ==> r.value == Params(Expression(attributes, keyAttribute),
                                        Names(BaseNames(initial), attributes, keyAttribute),
                                        Values(BaseValues(initial), attributes, keyAttribute))
  {
    var expression := "";
    var prefix := "set ";
    var names := BaseNames(initial);
    var values := BaseValues(initial);
    var i := 0;
    while i < |attributes|
      invariant 0 <= i <= |attributes|
      invariant expression == Expression(attributes[..i], keyAttribute)
      invariant prefix == if Clauses(attributes[..i], keyAttribute) == [] then "set " else ", "
      invariant names == Names(BaseNames(initial), attributes[..i], keyAttribute)
      invariant values == Values(BaseValues(initial), attributes[..i], keyAttribute)
      invariant initial.None? ==> Clauses(attributes[..i], keyAttribute) == []
    {
      var a := attributes[i];
      StepClauses(attributes, keyAttribute, i);
      StepNames(BaseNames(initial), attributes, keyAttribute, i);
      StepValues(BaseValues(initial), attributes, keyAttribute, i);
      StepExpression(attributes, keyAttribute, i);
      if a != keyAttribute {
        expression := expression + prefix + Clause(a);
        if initial.None? {
          ClausesCover(attributes, keyAttribute, i);
          return Err("cannot set a placeholder value: ExpressionAttributeValues is undefined");
        }
        values := values[":" + a := Field(a)];
        names := names["#" + a := a];
        prefix := ", ";
      }
      i := i + 1;
    }
    assert attributes[..i] == attributes;
    return Ok(Params(expression, names, values));
  }

  /** One more attribute adds its assignment, unless it is the key. */
  lemma StepClauses(attributes: seq<string>, keyAttribute: string, i: int)
    requires 0 <= i < |attributes|
    ensures Clauses(attributes[..i + 1], keyAttribute)
         == Clauses(attributes[..i], keyAttribute) + (if attributes[i] == keyAttribute then [] else [Clause(attributes[i])])
  {
    assert attributes[..i + 1][..i] == attributes[..i];
  }

  /** One more attribute adds its name placeholder, unless it is the key. */
  lemma StepNames(base: map<string, string>, attributes: seq<string>, keyAttribute: string, i: int)
    requires 0 <= i < |attributes|
    ensures var a, m := attributes[i], Names(base, attributes[..i], keyAttribute);
      Names(base, attributes[..i + 1], keyAttribute) == if a == keyAttribute then m else m["#" + a := a]
  {
    assert attributes[..i + 1][..i] == attributes[..i];
  }

  /** One more attribute adds its value placeholder, unless it is the key. */
  lemma StepValues(base: map<string, Value>, attributes: seq<string>, keyAttribute: string, i: int)
    requires 0 <= i < |attributes|
    ensures var a, m := attributes[i], Values(base, attributes[..i], keyAttribute);
      Values(base, attributes[..i + 1], keyAttribute) == if a == keyAttribute then m else m[":" + a := Field(a)]
  {
    assert attributes[..i + 1][..i] == attributes[..i];
  }

  /**
   * One more attribute leaves the expression as it was when it is the key,
   * and otherwise extends it by the current prefix and its assignment.
   */
  lemma StepExpression(attributes: seq<string>, keyAttribute: string, i: int)
    requires 0 <= i < |attributes|
    ensures Expression(attributes[..i + 1], keyAttribute)
         == if attributes[i] == keyAttribute then Expression(attributes[..i], keyAttribute)
            else Expression(attributes[..i], keyAttribute) + (if Clauses(attributes[..i], keyAttribute) == [] then "set " else ", ") + Clause(attributes[i])
  {
    StepClauses(attributes, keyAttribute, i);
    var cs, c := Clauses(attributes[..i], keyAttribute), Clause(attributes[i]);
    if attributes[i] == keyAttribute {
      assert cs + [] == cs;
    }
    JoinSnoc(cs, c, ", ");
    if attributes[i] != keyAttribute && cs != [] {
      assert "set " + (Join(cs, ", ") + ", " + c) == "set " + Join(cs, ", ") + ", " + c;
    }
  }

  /** Appending a part appends the separator and the part, unless nothing came before. */
  lemma JoinSnoc(parts: seq<string>, c: string, sep: string)
    ensures Join(parts + [c], sep) == if parts == [] then c else Join(parts, sep) + sep + c
  {
    assert (parts + [c])[..|parts|] == parts;
  }

  /** Every attribute other than the key contributes its assignment. */
  lemma {:induction false} ClausesCover(attributes: seq<string>, keyAttribute: string, i: int)
    requires 0 <= i < |attributes| && attributes[i] != keyAttribute
    ensures Clause(attributes[i]) in Clauses(attributes, keyAttribute)
    decreases |attributes|
  {
    var init := attributes[..|attributes| - 1];
    if i < |attributes| - 1 {
      assert init[i] == attributes[i];
      ClausesCover(init, keyAttribute, i);
    }
  }

  /** Every assignment comes from an attribute other than the key. */
  lemma {:induction false} ClausesSound(attributes: seq<string>, keyAttribute: string, c: string)
    requires c in Clauses(attributes, keyAttribute)
    ensures exists i :: 0 <= i < |attributes| && attributes[i] != keyAttribute && c == Clause(attributes[i])
    decreases |attributes|
  {
    var init, a := attributes[..|attributes| - 1], attributes[|attributes| - 1];
    if c in Clauses(init, keyAttribute) {
      ClausesSound(init, keyAttribute, c);
      var i :| 0 <= i < |init| && init[i] != keyAttribute && c == Clause(init[i]);
      assert attributes[i] == init[i];
    } else {
      assert c == Clause(a) && a != keyAttribute;
    }
  }

  /** The key attribute never receives an assignment, whatever else is present. */
  lemma KeyNeverAssigned(attributes: seq<string>, keyAttribute: string)
    ensures Clause(keyAttribute) !in Clauses(attributes, keyAttribute)
  {
    forall a | a in attributes && a != keyAttribute
      ensures Clause(a) != Clause(keyAttribute)
    {
      ClauseInjective(a, keyAttribute);
    }
    OnlyPresentAssigned(attributes, keyAttribute, keyAttribute);
  }

  /** An assignment to `a` appears only when `a` is an attribute other than the key. */
  lemma OnlyPresentAssigned(attributes: seq<string>, keyAttribute: string, a: string)
    ensures Clause(a) in Clauses(attributes, keyAttribute) ==> a in attributes && a != keyAttribute
  {
    if Clause(a) in Clauses(attributes, keyAttribute) {
      ClausesSound(attributes, keyAttribute, Clause(a));
      var i :| 0 <= i < |attributes| && attributes[i] != keyAttribute && Clause(a) == Clause(attributes[i]);
      ClauseInjective(a, attributes[i]);
    }
  }

  /** Distinct attribute names give distinct assignments. */
  lemma ClauseInjective(a: string, b: string)
    ensures Clause(a) == Clause(b) <==> a == b
  {
    if Clause(a) == Clause(b) {
      assert Clause(a) == "#" + a + " = :" + a;
      var n := |Clause(a)|;
      assert |a| == |b|;
      assert a == Clause(a)[n - |a|..];
      assert b == Clause(b)[n - |b|..];
    }
  }

  /**
   * The table's own key attributes. An item read back from the table carries
   * them, and the store refuses an update expression that assigns either.
   */
  const TableKeyAttributes: set<string> := {"pk", "sk"}

  /** The update assigns one of the table's key attributes, which the store refuses. */
  predicate SetsTableKey(attributes: seq<string>, keyAttribute: string) {
    Clause("pk") in Clauses(attributes, keyAttribute) || Clause("sk") in Clauses(attributes, keyAttribute)
  }

  /** The attributes, in order, without those in `skip`. */
  function Without(attributes: seq<string>, skip: set<string>): (r: seq<string>)
    ensures forall a :: a in r <==> a in attributes && a !in skip
    decreases |attributes|
  {
    if attributes == [] then []
    else
      var init, a := attributes[..|attributes| - 1], attributes[|attributes| - 1];
      assert attributes == init + [a];
      Without(init, skip) + (if a in skip then [] else [a])
  }

  /**
   * Skipping the table's key attributes is what makes an update of a stored
   * item acceptable: no key attribute is assigned, and every other attribute
   * but the record's key still is.
   */
  lemma WithoutTableKeys(attributes: seq<string>, keyAttribute: string)
    ensures !SetsTableKey(Without(attributes, TableKeyAttributes), keyAttribute)
    ensures forall a :: a in attributes && a !in TableKeyAttributes && a != keyAttribute ==>
              Clause(a) in Clauses(Without(attributes, TableKeyAttributes), keyAttribute)
  {
    var kept := Without(attributes, TableKeyAttributes);
    OnlyPresentAssigned(kept, keyAttribute, "pk");
    OnlyPresentAssigned(kept, keyAttribute, "sk");
    forall a | a in attributes && a !in TableKeyAttributes && a != keyAttribute
      ensures Clause(a) in Clauses(kept, keyAttribute)
    {
      var i :| 0 <= i < |kept| && kept[i] == a;
      ClausesCover(kept, keyAttribute, i);
    }
  }

  /** An item that carries a key attribute other than the record's key has it assigned when nothing is skipped. */
  lemma StoredItemSetsTableKey(attributes: seq<string>, keyAttribute: string, i: int)
    requires 0 <= i < |attributes| && attributes[i] in TableKeyAttributes && attributes[i] != keyAttribute
    ensures SetsTableKey(attributes, keyAttribute)
  {
    ClausesCover(attributes, keyAttribute, i);
  }

  /** The name placeholders the expression mentions: `#a` for each assigned attribute `a`. */
  function NamePlaceholders(attributes: seq<string>, keyAttribute: string): set<string> {
    set a | a in attributes && a != keyAttribute :: "#" + a
  }

  /** The value placeholders the expression mentions: `:a` for each assigned attribute `a`. */
  function ValuePlaceholders(attributes: seq<string>, keyAttribute: string): set<string> {
    set a | a in attributes && a != keyAttribute :: ":" + a
  }

  /**
   * The store's validation of an update: the placeholders the maps define
   * are exactly the ones the expression mentions. An update that defines a
   * placeholder it never uses is refused as a whole.
   */
  predicate Accepted(p: Params, attributes: seq<string>, keyAttribute: string) {
    p.names.Keys == NamePlaceholders(attributes, keyAttribute)
    && p.values.Keys == ValuePlaceholders(attributes, keyAttribute)
  }

  /** Starting from empty maps, the builder defines exactly the placeholders its expression mentions. */
  lemma {:induction false} EmptyStartUsesEveryPlaceholder(attributes: seq<string>, keyAttribute: string)
    ensures Names(map[], attributes, keyAttribute).Keys == NamePlaceholders(attributes, keyAttribute)
    ensures Values(map[], attributes, keyAttribute).Keys == ValuePlaceholders(attributes, keyAttribute)
    decreases |attributes|
  {
    if attributes != [] {
      var init, a := attributes[..|attributes| - 1], attributes[|attributes| - 1];
      EmptyStartUsesEveryPlaceholder(init, keyAttribute);
      assert attributes == init + [a];
      assert forall x :: x in attributes <==> x in init || x == a;
      assert NamePlaceholders(attributes, keyAttribute)
          == NamePlaceholders(init, keyAttribute) + (if a == keyAttribute then {} else {"#" + a});
      assert ValuePlaceholders(attributes, keyAttribute)
          == ValuePlaceholders(init, keyAttribute) + (if a == keyAttribute then {} else {":" + a});
    }
  }

  /** The builder only adds to the name map it starts from. */
  lemma {:induction false} NamesKeepStart(base: map<string, string>, attributes: seq<string>, keyAttribute: string)
    ensures base.Keys <= Names(base, attributes, keyAttribute).Keys
    decreases |attributes|
  {
    if attributes != [] {
      NamesKeepStart(base, attributes[..|attributes| - 1], keyAttribute);
    }
  }

  /**
   * A starting name placeholder that no attribute's assignment mentions
   * survives the loop, so the store refuses the update.
   */
  lemma UnusedStartNameRefused(base: map<string, string>, vbase: map<string, Value>,
                               attributes: seq<string>, keyAttribute: string, n: string)
    requires n in base && n !in NamePlaceholders(attributes, keyAttribute)
    ensures !Accepted(Params(Expression(attributes, keyAttribute), Names(base, attributes, keyAttribute),
                             Values(vbase, attributes, keyAttribute)), attributes, keyAttribute)
  {
    NamesKeepStart(base, attributes, keyAttribute);
  }
}
