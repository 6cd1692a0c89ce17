/**
 * The lint rule that forbids two form fields submitting one property name
 * (eslint-rules/no-duplicate-field-names.js): an enter/exit visitor with a stack
 * of name maps, one map per open form.
 */
module DuplicateFieldNames {
  import opened Wrappers

  // --- The parsed template -------------------------------------------------

  datatype Property = Identifier(name: string) | Literal(text: Option<string>) | OtherProperty

  datatype Expression = MemberExpression(computed: bool, property: Property) | OtherExpression

  /** One piece of an attribute's value; `text` is None for a literal that is no string. */
  datatype ValuePart = SvelteLiteral(text: Option<string>) | SvelteMustacheTag(expression: Expression) | OtherPart

  /** `loc` tells apart two attributes written alike at different places. */
  datatype Attribute =
    | SvelteAttribute(loc: nat, key: Option<string>, value: seq<ValuePart>)
    | OtherAttribute(loc: nat)

  datatype Kind = Html | Component | Special

  /** `OtherNode` is text or a block such as `{#if}`, transparent to the rule. */
  datatype Node =
    | SvelteElement(tag: Option<string>, kind: Kind, attributes: seq<Attribute>, children: seq<Node>)
    | OtherNode(children: seq<Node>)

  datatype Field = Field(name: string, attr: Attribute)

  // --- Resolving a field's name --------------------------------------------

  /** The attribute is the one that settles the field's name, one way or the other. */
  predicate Decides(attr: Attribute) {
    attr.SvelteAttribute? && (attr.key == Some("name") || attr.key == Some("field"))
  }

  /** The name the deciding attribute gives statically, if it gives one. */
  function StaticName(attr: Attribute): Option<string>
    requires Decides(attr)
  {
    if |attr.value| != 1 then
      None
    else if attr.key == Some("name") then
      if attr.value[0].SvelteLiteral? then attr.value[0].text else None
    else
      match attr.value[0]
      case SvelteMustacheTag(MemberExpression(false, Identifier(name))) => Some(name)
      case SvelteMustacheTag(MemberExpression(true, Literal(text))) => text
      case _ => None
  }

  predicate FirstDeciding(attributes: seq<Attribute>, i: nat) {
    i < |attributes| && Decides(attributes[i]) && forall j :: 0 <= j < i ==> !Decides(attributes[j])
  }

  /** The first deciding attribute wins, even when it yields no static name. */
  function ResolveFieldName(attributes: seq<Attribute>): (resolved: Option<Field>)
    ensures forall i: nat :: FirstDeciding(attributes, i) ==>
      && (resolved.Some? <==> StaticName(attributes[i]).Some?)
      && (resolved.Some? ==> resolved.value == Field(StaticName(attributes[i]).value, attributes[i]))
    ensures resolved.Some? ==> exists i: nat :: FirstDeciding(attributes, i)
  {
    if attributes == [] then
      None
    else if Decides(attributes[0]) then
      assert FirstDeciding(attributes, 0);
      match StaticName(attributes[0])
      case Some(name) => Some(Field(name, attributes[0]))
      case None => None
    else
      var rest := attributes[1..];
      assert forall i: nat :: FirstDeciding(rest, i) ==> FirstDeciding(attributes, i + 1);
      assert forall i: nat :: FirstDeciding(attributes, i) ==> i > 0 && FirstDeciding(rest, i - 1) by {
        forall i: nat | FirstDeciding(attributes, i) ensures i > 0 && FirstDeciding(rest, i - 1) {
          assert forall j :: 0 <= j < i - 1 ==> rest[j] == attributes[j + 1];
        }
      }
      ResolveFieldName(rest)
  }

  predicate IsFormTag(node: Node) {
    node.SvelteElement? && (node.tag == Some("Form") || node.tag == Some("form"))
  }

  /** A tag written with a leading capital counts as a component whatever its kind. */
  predicate IsComponent(node: Node) {
    node.SvelteElement?
    && (node.kind.Component? || (node.tag.Some? && |node.tag.value| > 0 && 'A' <= node.tag.value[0] <= 'Z'))
  }

  /** The field a node submits: components only, and never the `<Select>` wrapper. */
  function FieldOf(node: Node): Option<Field> {
    if !IsComponent(node) || IsFormTag(node) || node.tag == Some("Select") then None
    else ResolveFieldName(node.attributes)
  }

  /** Attribute `i` is the first one keyed `name` or `field`. */
  ghost predicate IsFirstNameOrField(attributes: seq<Attribute>, i: nat) {
    && i < |attributes|
    && attributes[i].SvelteAttribute? && attributes[i].key in {Some("name"), Some("field")}
    && (forall j :: 0 <= j < i && attributes[j].SvelteAttribute? ==>
          attributes[j].key !in {Some("name"), Some("field")})
  }

  /** `name="n"`, `field={….n}` or `field={…['n']}`. */
  ghost predicate IsNamed(attr: Attribute, n: string) {
    || attr == SvelteAttribute(attr.loc, Some("name"), [SvelteLiteral(Some(n))])
    || attr == SvelteAttribute(attr.loc, Some("field"), [SvelteMustacheTag(MemberExpression(false, Identifier(n)))])
    || attr == SvelteAttribute(attr.loc, Some("field"), [SvelteMustacheTag(MemberExpression(true, Literal(Some(n))))])
  }

  lemma StaticNameIff(attr: Attribute, n: string)
    requires Decides(attr)
    ensures StaticName(attr) == Some(n) <==> IsNamed(attr, n)
  {
    assert |attr.value| == 1 ==> attr.value == [attr.value[0]];
  }

  /**
   * A node is the field `n` exactly when it is a component, neither a form nor the `Select` wrapper, and
   * its first attribute keyed `name` or `field` has one of the three static shapes.
   */
  lemma FieldOfIff(node: Node, n: string, attr: Attribute)
    ensures FieldOf(node) == Some(Field(n, attr)) <==>
      && node.SvelteElement?
      && (node.kind == Component || exists rest, c :: node.tag == Some([c] + rest) && 'A' <= c <= 'Z')
      && node.tag !in {Some("Form"), Some("form"), Some("Select")}
      && (exists i: nat :: IsFirstNameOrField(node.attributes, i) && node.attributes[i] == attr)
      && IsNamed(attr, n)
  {
    if node.SvelteElement? {
      if node.tag.Some? && |node.tag.value| > 0 {
        assert node.tag.value == [node.tag.value[0]] + node.tag.value[1..];
      }
      forall i: nat ensures FirstDeciding(node.attributes, i) <==> IsFirstNameOrField(node.attributes, i) {
      }
      if i: nat :| FirstDeciding(node.attributes, i) {
        StaticNameIff(node.attributes[i], n);
        forall j: nat | FirstDeciding(node.attributes, j) ensures j == i {
        }
      }
    }
  }

  // --- The visitor's transitions on values ---------------------------------

  datatype Report = Report(attr: Attribute, name: string)

  datatype State = State(formStack: seq<map<string, Attribute>>, reports: seq<Report>)

  function Enter(s: State, node: Node): State {
    if IsFormTag(node) then
      s.(formStack := s.formStack + [map[]])
    else if |s.formStack| == 0 then
      s
    else
      match FieldOf(node)
      case None => s
      case Some(f) =>
        var top := |s.formStack| - 1;
        if f.name in s.formStack[top] then
          s.(reports := s.reports + [Report(f.attr, f.name)])
        else
          s.(formStack := s.formStack[top := s.formStack[top][f.name := f.attr]])
  }

  function Exit(s: State, node: Node): State {
    if IsFormTag(node) && |s.formStack| > 0 then s.(formStack := s.formStack[..|s.formStack| - 1]) else s
  }

  /** Document-order traversal: enter a node, its children, leave it. */
  function Walk(s: State, node: Node): State
    decreases node, 1
  {
    Exit(WalkAll(Enter(s, node), node.children), node)
  }

  function WalkAll(s: State, nodes: seq<Node>): State
    decreases nodes, 0
  {
    if nodes == [] then s else WalkAll(Walk(s, nodes[0]), nodes[1..])
  }

  // --- The reference definition --------------------------------------------

  /** How many form tags a subtree opens. */
  function Forms(node: Node): nat
    decreases node, 1
  {
    (if IsFormTag(node) then 1 else 0) + FormsAll(node.children)
  }

  function FormsAll(nodes: seq<Node>): nat
    decreases nodes, 0
  {
    if nodes == [] then 0 else Forms(nodes[0]) + FormsAll(nodes[1..])
  }

  /** A field component together with its nearest enclosing form. */
  datatype Occurrence = Occurrence(form: nat, field: Field)

  /** The field a node itself contributes, given its nearest enclosing form. */
  function OwnField(node: Node, form: Option<nat>): seq<Occurrence> {
    if form.Some? && FieldOf(node).Some? then [Occurrence(form.value, FieldOf(node).value)] else []
  }

  /**
   * The fields of a subtree in document order. A form is known by the number of
   * form tags opened before it; `form` is the nearest one around the subtree, and
   * `before` counts the form tags opened ahead of the subtree.
   */
  function Occurrences(node: Node, form: Option<nat>, before: nat): seq<Occurrence>
    decreases node, 1
  {
    if IsFormTag(node) then
      OccurrencesAll(node.children, Some(before), before + 1)
    else
      OwnField(node, form) + OccurrencesAll(node.children, form, before)
  }

  function OccurrencesAll(nodes: seq<Node>, form: Option<nat>, before: nat): seq<Occurrence>
    decreases nodes, 0
  {
    if nodes == [] then []
    else Occurrences(nodes[0], form, before) + OccurrencesAll(nodes[1..], form, before + Forms(nodes[0]))
  }

  /** A field belongs to the form around the subtree or to one the subtree opens; outside every form there is none. */
  lemma {:induction false} FieldsLieInForms(node: Node, form: Option<nat>, before: nat)
    ensures forall occ :: occ in Occurrences(node, form, before) ==>
      Some(occ.form) == form || before <= occ.form < before + Forms(node)
    decreases node, 1
  {
    if IsFormTag(node) {
      FieldsLieInFormsAll(node.children, Some(before), before + 1);
    } else {
      FieldsLieInFormsAll(node.children, form, before);
    }
  }

  lemma {:induction false} FieldsLieInFormsAll(nodes: seq<Node>, form: Option<nat>, before: nat)
    ensures forall occ :: occ in OccurrencesAll(nodes, form, before) ==>
      Some(occ.form) == form || before <= occ.form < before + FormsAll(nodes)
    decreases nodes, 0
  {
    if nodes == [] {
    } else {
      FieldsLieInForms(nodes[0], form, before);
      FieldsLieInFormsAll(nodes[1..], form, before + Forms(nodes[0]));
    }
  }

  /** Some field of the list already submits this name in this form. */
  predicate Submits(occs: seq<Occurrence>, form: nat, name: string) {
    exists i :: 0 <= i < |occs| && occs[i].form == form && occs[i].field.name == name
  }

  /** Every field whose name an earlier field of the same form already submits. */
  function Duplicates(occs: seq<Occurrence>): seq<Report> {
    if occs == [] then [] else
    var earlier, last := occs[..|occs| - 1], occs[|occs| - 1];
    Duplicates(earlier)
    + if Submits(earlier, last.form, last.field.name) then [Report(last.field.attr, last.field.name)] else []
  }

  /** Each name submitted in a form, with the attribute that submitted it first. */
  function FirstUses(occs: seq<Occurrence>, form: nat): (uses: map<string, Attribute>)
    ensures forall name :: name in uses <==> Submits(occs, form, name)
  {
    if occs == [] then map[] else
    var earlier, last := occs[..|occs| - 1], occs[|occs| - 1];
    var uses := FirstUses(earlier, form);
    assert forall name :: Submits(occs, form, name) <==>
      Submits(earlier, form, name) || (last.form == form && last.field.name == name) by {
      forall name | Submits(earlier, form, name) ensures Submits(occs, form, name) {
        var i :| 0 <= i < |earlier| && earlier[i].form == form && earlier[i].field.name == name;
        assert occs[i] == earlier[i];
      }
    }
    if last.form == form && last.field.name !in uses then uses[last.field.name := last.field.attr] else uses
  }

  // --- Simulation ----------------------------------------------------------

  /** The state after passing the fields `seen`, with the forms `chain` open, outermost first. */
  function StateAfter(chain: seq<nat>, seen: seq<Occurrence>): State {
    State(seq(|chain|, i requires 0 <= i < |chain| => FirstUses(seen, chain[i])), Duplicates(seen))
  }

  /** Only forms opened so far occur, and the open ones are nested in opening order. */
  ghost predicate Bounded(chain: seq<nat>, seen: seq<Occurrence>, before: nat) {
    && (forall i :: 0 <= i < |seen| ==> seen[i].form < before)
    && (forall i :: 0 <= i < |chain| ==> chain[i] < before)
    && (forall i, j :: 0 <= i < j < |chain| ==> chain[i] < chain[j])
  }

  function Innermost(chain: seq<nat>): Option<nat> {
    if chain == [] then None else Some(chain[|chain| - 1])
  }

  /** A form that no field belongs to yet starts with no names. */
  lemma NewFormIsEmpty(occs: seq<Occurrence>, form: nat)
    requires forall i :: 0 <= i < |occs| ==> occs[i].form != form
    ensures FirstUses(occs, form) == map[]
  {
    if occs == [] {
    } else {
      NewFormIsEmpty(occs[..|occs| - 1], form);
    }
  }

  lemma EnterForm(form: Node, chain: seq<nat>, before: nat, seen: seq<Occurrence>)
    requires IsFormTag(form) && Bounded(chain, seen, before)
    ensures Enter(StateAfter(chain, seen), form) == StateAfter(chain + [before], seen)
    ensures Bounded(chain + [before], seen, before + 1)
  {
    NewFormIsEmpty(seen, before);
  }

  lemma ExitForm(form: Node, chain: seq<nat>, f: nat, seen: seq<Occurrence>)
    requires IsFormTag(form)
    ensures Exit(StateAfter(chain + [f], seen), form) == StateAfter(chain, seen)
  {
  }

  /** What one more field adds to the names of a form and to the duplicates. */
  lemma OneMoreField(seen: seq<Occurrence>, occ: Occurrence, form: nat)
    ensures var uses := FirstUses(seen, form);
      FirstUses(seen + [occ], form)
        == if occ.form == form && occ.field.name !in uses then uses[occ.field.name := occ.field.attr] else uses
    ensures Duplicates(seen + [occ]) == Duplicates(seen)
      + if occ.field.name in FirstUses(seen, occ.form) then [Report(occ.field.attr, occ.field.name)] else []
  {
    assert (seen + [occ])[..|seen|] == seen;
  }

  lemma EnterField(node: Node, chain: seq<nat>, f: nat, field: Field, seen: seq<Occurrence>)
    requires !IsFormTag(node) && FieldOf(node) == Some(field) && f !in chain
    ensures Enter(StateAfter(chain + [f], seen), node) == StateAfter(chain + [f], seen + [Occurrence(f, field)])
  {
    var forms, occ := chain + [f], Occurrence(f, field);
    forall i | 0 <= i < |forms|
      ensures Enter(StateAfter(forms, seen), node).formStack[i] == FirstUses(seen + [occ], forms[i])
    {
      OneMoreField(seen, occ, forms[i]);
    }
    OneMoreField(seen, occ, f);
  }

  lemma EnterOther(node: Node, chain: seq<nat>, before: nat, seen: seq<Occurrence>)
    requires !IsFormTag(node) && Bounded(chain, seen, before)
    ensures Enter(StateAfter(chain, seen), node) == StateAfter(chain, seen + OwnField(node, Innermost(chain)))
    ensures Bounded(chain, seen + OwnField(node, Innermost(chain)), before)
  {
    if OwnField(node, Innermost(chain)) == [] {
      assert seen + [] == seen;
    } else {
      var outer, f := chain[..|chain| - 1], chain[|chain| - 1];
      assert chain == outer + [f];
      EnterField(node, outer, f, FieldOf(node).value, seen);
    }
  }

  lemma BoundedAfter(node: Node, chain: seq<nat>, before: nat, seen: seq<Occurrence>)
    requires Bounded(chain, seen, before)
    ensures Bounded(chain, seen + Occurrences(node, Innermost(chain), before), before + Forms(node))
  {
    var occs := Occurrences(node, Innermost(chain), before);
    FieldsLieInForms(node, Innermost(chain), before);
    forall i | 0 <= i < |occs| ensures occs[i].form < before + Forms(node) {
      assert occs[i] in occs;
    }
  }

  /** Passing a subtree adds its fields to those seen and leaves the open forms as they were. */
  lemma {:induction false} WalkAddsOccurrences(node: Node, chain: seq<nat>, before: nat, seen: seq<Occurrence>)
    requires Bounded(chain, seen, before)
    ensures Walk(StateAfter(chain, seen), node) == StateAfter(chain, seen + Occurrences(node, Innermost(chain), before))
    decreases node, 1
  {
    if IsFormTag(node) {
      var occs := OccurrencesAll(node.children, Some(before), before + 1);
      EnterForm(node, chain, before, seen);
      WalkAllAddsOccurrences(node.children, chain + [before], before + 1, seen);
      ExitForm(node, chain, before, seen + occs);
    } else {
      var own := OwnField(node, Innermost(chain));
      EnterOther(node, chain, before, seen);
      WalkAllAddsOccurrences(node.children, chain, before, seen + own);
      assert seen + (own + OccurrencesAll(node.children, Innermost(chain), before))
          == (seen + own) + OccurrencesAll(node.children, Innermost(chain), before);
    }
  }

  lemma {:induction false} WalkAllAddsOccurrences(nodes: seq<Node>, chain: seq<nat>, before: nat, seen: seq<Occurrence>)
    requires Bounded(chain, seen, before)
    ensures WalkAll(StateAfter(chain, seen), nodes)
      == StateAfter(chain, seen + OccurrencesAll(nodes, Innermost(chain), before))
    decreases nodes, 0
  {
    if nodes == [] {
      assert seen + [] == seen;
    } else {
      var here := Occurrences(nodes[0], Innermost(chain), before);
      var rest := OccurrencesAll(nodes[1..], Innermost(chain), before + Forms(nodes[0]));
      WalkAddsOccurrences(nodes[0], chain, before, seen);
      BoundedAfter(nodes[0], chain, before, seen);
      WalkAllAddsOccurrences(nodes[1..], chain, before + Forms(nodes[0]), seen + here);
      assert seen + (here + rest) == (seen + here) + rest;
    }
  }

  /** The traversal reports exactly the repeated names, and leaves the stack as it found it. */
  lemma WalkReportsDuplicates(root: Node)
    ensures Walk(State([], []), root) == State([], Duplicates(Occurrences(root, None, 0)))
  {
    WalkAddsOccurrences(root, [], 0, []);
    assert [] + Occurrences(root, None, 0) == Occurrences(root, None, 0);
    assert StateAfter([], []) == State([], []);
  }

  /** The rule stays silent exactly when every form's field names are pairwise different. */
  lemma {:induction false} SilentIffDistinct(occs: seq<Occurrence>)
    ensures Duplicates(occs) == [] <==>
      forall i, j :: 0 <= i < j < |occs| && occs[i].form == occs[j].form ==> occs[i].field.name != occs[j].field.name
  {
    if occs == [] {
    } else {
      var earlier, last := occs[..|occs| - 1], |occs| - 1;
      SilentIffDistinct(earlier);
      assert forall i :: 0 <= i < last ==> occs[i] == earlier[i];
    }
  }

  /** Reported is a field for which an earlier one of the same form has the same name. */
  ghost predicate IsRepeat(occs: seq<Occurrence>, r: Report) {
    exists i, j :: 0 <= i < j < |occs| && occs[i].form == occs[j].form && occs[i].field.name == occs[j].field.name
      && r == Report(occs[j].field.attr, occs[j].field.name)
  }

  lemma {:induction false} ReportsAreRepeats(occs: seq<Occurrence>)
    ensures forall r :: r in Duplicates(occs) <==> IsRepeat(occs, r)
  {
    if occs == [] {
    } else {
      var earlier, n := occs[..|occs| - 1], |occs| - 1;
      ReportsAreRepeats(earlier);
      assert forall i :: 0 <= i < n ==> occs[i] == earlier[i];
      forall r | IsRepeat(earlier, r) ensures IsRepeat(occs, r) {
        var i, j :| 0 <= i < j < n && earlier[i].form == earlier[j].form
          && earlier[i].field.name == earlier[j].field.name
          && r == Report(earlier[j].field.attr, earlier[j].field.name);
        assert occs[i] == earlier[i] && occs[j] == earlier[j];
      }
      if Submits(earlier, occs[n].form, occs[n].field.name) {
        var i :| 0 <= i < n && earlier[i].form == occs[n].form && earlier[i].field.name == occs[n].field.name;
        assert occs[i] == earlier[i] && IsRepeat(occs, Report(occs[n].field.attr, occs[n].field.name));
      }
    }
  }

  function ComponentWith(tag: string, attr: Attribute): Node {
    SvelteElement(Some(tag), Component, [attr], [])
  }

  /** A component without children is the field `n` of its form. */
  lemma LeafField(tag: string, attr: Attribute, n: string, form: nat, before: nat)
    requires tag !in {"Form", "form", "Select"} && IsNamed(attr, n)
    ensures Occurrences(ComponentWith(tag, attr), Some(form), before) == [Occurrence(form, Field(n, attr))]
    ensures Forms(ComponentWith(tag, attr)) == 0
  {
    assert IsFirstNameOrField([attr], 0);
    FieldOfIff(ComponentWith(tag, attr), n, attr);
  }

  lemma OccurrencesOfCons(node: Node, rest: seq<Node>, form: Option<nat>, before: nat)
    ensures OccurrencesAll([node] + rest, form, before)
      == Occurrences(node, form, before) + OccurrencesAll(rest, form, before + Forms(node))
    ensures FormsAll([node] + rest) == Forms(node) + FormsAll(rest)
  {
    assert ([node] + rest)[1..] == rest;
  }

  lemma OccurrencesOfTwo(a: Node, b: Node, form: Option<nat>, before: nat, x: Occurrence, y: Occurrence)
    requires Forms(a) == 0 && Occurrences(a, form, before) == [x] && Occurrences(b, form, before) == [y]
    ensures OccurrencesAll([a, b], form, before) == [x, y]
  {
    OccurrencesOfCons(b, [], form, before);
    OccurrencesOfCons(a, [b], form, before);
    assert [b] == [b] + [] && [a, b] == [a] + [b] && [x, y] == [x] + ([y] + []);
  }

  lemma DuplicatesOfTwo(x: Occurrence, y: Occurrence)
    requires x.form == y.form && x.field.name == y.field.name
    ensures Duplicates([x, y]) == [Report(y.field.attr, y.field.name)]
  {
    assert [x, y][..1] == [x] && [x][..0] == [] && Duplicates([x]) == [];
    assert [x][0] == x && Submits([x], y.form, y.field.name);
  }

  /** Two fields bound to one property in a form: exactly the second is reported. */
  lemma SecondFieldIsReported(n: string)
    ensures var first := SvelteAttribute(1, Some("field"), [SvelteMustacheTag(MemberExpression(false, Identifier(n)))]);
      var second := first.(loc := 2);
      var fields := [ComponentWith("FormField", first), ComponentWith("FormField", second)];
      Duplicates(Occurrences(SvelteElement(Some("Form"), Component, [], fields), None, 0)) == [Report(second, n)]
  {
    var first := SvelteAttribute(1, Some("field"), [SvelteMustacheTag(MemberExpression(false, Identifier(n)))]);
    var second := first.(loc := 2);
    var a, b := ComponentWith("FormField", first), ComponentWith("FormField", second);
    assert |"FormField"| == 9 && |"Form"| == 4 && |"form"| == 4 && |"Select"| == 6;
    LeafField("FormField", first, n, 0, 1);
    LeafField("FormField", second, n, 0, 1);
    var x, y := Occurrence(0, Field(n, first)), Occurrence(0, Field(n, second));
    OccurrencesOfTwo(a, b, Some(0), 1, x, y);
    DuplicatesOfTwo(x, y);
  }

  // --- The visitor itself --------------------------------------------------

  class Visitor {
    var formStack: seq<map<string, Attribute>>
    var reports: seq<Report>

    ghost function Contents(): State
      reads this
    {
      State(formStack, reports)
    }

    constructor ()
      ensures Contents() == State([], [])
    {
      formStack, reports := [], [];
    }

    method SvelteElement(node: Node)
      modifies this
      ensures Contents() == Enter(old(Contents()), node)
    {
      if IsFormTag(node) {
        formStack := formStack + [map[]];
        return;
      }
      if |formStack| == 0 {
        return;
      }
      var top := |formStack| - 1;
      var scope := formStack[top];
      if !IsComponent(node) {
        return;
      }
      if node.tag == Some("Select") {
        return;
      }
      var resolved := ResolveFieldName(node.attributes);
      if resolved == None {
        return;
      }
      var field := resolved.value;
      if field.name in scope {
        reports := reports + [Report(field.attr, field.name)];
      } else {
        formStack := formStack[top := scope[field.name := field.attr]];
      }
    }

    method SvelteElementExit(node: Node)
      modifies this
      ensures Contents() == Exit(old(Contents()), node)
    {
      if IsFormTag(node) && |formStack| > 0 {
        formStack := formStack[..|formStack| - 1];
      }
    }

    method Traverse(node: Node)
      modifies this
      ensures Contents() == Walk(old(Contents()), node)
      decreases node, 1
    {
      SvelteElement(node);
      TraverseAll(node.children);
      SvelteElementExit(node);
    }

    method TraverseAll(nodes: seq<Node>)
      modifies this
      ensures Contents() == WalkAll(old(Contents()), nodes)
      decreases nodes, 0
    {
      if nodes != [] {
        Traverse(nodes[0]);
        TraverseAll(nodes[1..]);
      }
    }
  }

  /** Linting one template from a fresh visitor. */
  method Lint(root: Node) returns (reports: seq<Report>)
    ensures reports == Duplicates(Occurrences(root, None, 0))
    ensures forall r :: r in reports <==> IsRepeat(Occurrences(root, None, 0), r)
  {
    var visitor := new Visitor();
    visitor.Traverse(root);
    WalkReportsDuplicates(root);
    ReportsAreRepeats(Occurrences(root, None, 0));
    reports := visitor.reports;
  }
}
