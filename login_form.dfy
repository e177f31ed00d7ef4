/** `isLoginForm` / `checkFormFields`: the credential-form rule. A form is a
    login form when its subtree holds a password input and a username-like
    input. */
module LoginForm {
  import opened AsciiStrings
  import opened Html

  /** No attribute after index `i` is named `key`. */
  predicate IsLastWithKey(attrs: seq<Attribute>, key: string, i: int) {
    forall j :: 0 <= i < j < |attrs| ==> attrs[j].key != key
  }

  /** The lower-cased value of the last attribute named `key`, or "" when
      there is none: the value `checkFormFields` is left with after its
      attribute loop. */
  function LastAttrLower(attrs: seq<Attribute>, key: string): string {
    if attrs == [] then ""
    else if attrs[|attrs| - 1].key == key then ToLower(attrs[|attrs| - 1].val)
    else LastAttrLower(attrs[..|attrs| - 1], key)
  }

  /** With duplicate attributes the last one wins. */
  lemma {:induction false} LastAttrLowerWins(attrs: seq<Attribute>, key: string, i: nat)
    requires i < |attrs| && attrs[i].key == key && IsLastWithKey(attrs, key, i)
    ensures LastAttrLower(attrs, key) == ToLower(attrs[i].val)
    decreases |attrs|
  {
    if i < |attrs| - 1 {
      var init := attrs[..|attrs| - 1];
      assert attrs[|attrs| - 1].key != key;
      assert IsLastWithKey(init, key, i);
      LastAttrLowerWins(init, key, i);
    }
  }

  /** With no attribute of that name the value is "". */
  lemma {:induction false} LastAttrLowerAbsent(attrs: seq<Attribute>, key: string)
    requires forall i :: 0 <= i < |attrs| ==> attrs[i].key != key
    ensures LastAttrLower(attrs, key) == ""
    decreases |attrs|
  {
    if attrs != [] {
      LastAttrLowerAbsent(attrs[..|attrs| - 1], key);
    }
  }

  /** An `input` element (the tag compared exactly, as written). */
  predicate IsInput(v: Node) {
    v.kind == ElementNode && v.data == "input"
  }

  function InputType(v: Node): string {
    LastAttrLower(v.attr, "type")
  }

  function InputName(v: Node): string {
    LastAttrLower(v.attr, "name")
  }

  predicate IsPasswordInput(v: Node) {
    IsInput(v) && InputType(v) == "password"
  }

  /** A name that suggests a user identifier. */
  predicate NameSuggestsUser(name: string) {
    Contains(name, "user") || Contains(name, "email") || Contains(name, "login")
  }

  predicate IsUsernameInput(v: Node) {
    IsInput(v) && (InputType(v) == "text" || InputType(v) == "email" || InputType(v) == "") &&
    NameSuggestsUser(InputName(v))
  }

  predicate HasPasswordField(ns: seq<Node>) {
    exists v :: v in ns && IsPasswordInput(v)
  }

  predicate HasUsernameField(ns: seq<Node>) {
    exists v :: v in ns && IsUsernameInput(v)
  }

  /** The credential-form rule over the subtree of `n`, `n` included. */
  predicate IsCredentialForm(n: Node) {
    HasPasswordField(Preorder(n)) && HasUsernameField(Preorder(n))
  }

  /** The two pointed-to flags `checkFormFields` sets. */
  class FieldFlags {
    var hasPassword: bool
    var hasUsername: bool

    constructor ()
      ensures !hasPassword && !hasUsername
    {
      hasPassword, hasUsername := false, false;
    }
  }

  /** Walks the subtree of `n` and raises each flag when an input of its
      kind is found; a raised flag is never lowered. */
  method CheckFormFields(n: Node, flags: FieldFlags)
    modifies flags
    ensures flags.hasPassword == (old(flags.hasPassword) || HasPasswordField(Preorder(n)))
    ensures flags.hasUsername == (old(flags.hasUsername) || HasUsernameField(Preorder(n)))
    decreases n
  {
    CheckInput(n, flags);
    ghost var p0 := old(flags.hasPassword) || IsPasswordInput(n);
    ghost var u0 := old(flags.hasUsername) || IsUsernameInput(n);
    var cs := n.children;
    var k := 0;
    assert PreorderForest(cs[..0]) == [];
    while k < |cs|
      invariant k <= |cs|
      invariant flags.hasPassword == (p0 || HasPasswordField(PreorderForest(cs[..k])))
      invariant flags.hasUsername == (u0 || HasUsernameField(PreorderForest(cs[..k])))
    {
      ghost var next := PreorderForest(cs[..k + 1]);
      assert HasPasswordField(next) == (HasPasswordField(PreorderForest(cs[..k])) || HasPasswordField(Preorder(cs[k]))) &&
             HasUsernameField(next) == (HasUsernameField(PreorderForest(cs[..k])) || HasUsernameField(Preorder(cs[k]))) by {
        ForestStep(cs, k);
        FieldsAppend(PreorderForest(cs[..k]), Preorder(cs[k]));
      }
      CheckFormFields(cs[k], flags);
      k := k + 1;
      assert next == PreorderForest(cs[..k]);
    }
    assert cs[..k] == cs;
    PreorderFields(n);
  }

  /** The body of `checkFormFields` for one node: an `input` element raises
      the flag of its kind. */
  method CheckInput(n: Node, flags: FieldFlags)
    modifies flags
    ensures flags.hasPassword == (old(flags.hasPassword) || IsPasswordInput(n))
    ensures flags.hasUsername == (old(flags.hasUsername) || IsUsernameInput(n))
  {
    if n.kind == ElementNode && n.data == "input" {
      var inputType, inputName := InputAttributes(n.attr);
      if inputType == "password" {
        flags.hasPassword := true;
      }
      if inputType == "text" || inputType == "email" || inputType == "" {
        if Contains(inputName, "user") || Contains(inputName, "email") || Contains(inputName, "login") {
          flags.hasUsername := true;
        }
      }
    }
  }

  /** A subtree holds a field exactly when its root is one or a child's
      subtree holds one. */
  lemma PreorderFields(n: Node)
    ensures HasPasswordField(Preorder(n)) == (IsPasswordInput(n) || HasPasswordField(PreorderForest(n.children)))
    ensures HasUsernameField(Preorder(n)) == (IsUsernameInput(n) || HasUsernameField(PreorderForest(n.children)))
  {
    FieldsAppend([n], PreorderForest(n.children));
    assert n in [n];
  }

  lemma FieldsAppend(a: seq<Node>, b: seq<Node>)
    ensures HasPasswordField(a + b) == (HasPasswordField(a) || HasPasswordField(b))
    ensures HasUsernameField(a + b) == (HasUsernameField(a) || HasUsernameField(b))
  {
    if HasPasswordField(a + b) {
      var v :| v in a + b && IsPasswordInput(v);
      assert v in a || v in b;
    }
    if HasUsernameField(a + b) {
      var v :| v in a + b && IsUsernameInput(v);
      assert v in a || v in b;
    }
  }

  /** The attribute loop of `checkFormFields`: the lower-cased `type` and
      `name` of an input, each "" when absent. */
  method InputAttributes(attrs: seq<Attribute>) returns (inputType: string, inputName: string)
    ensures inputType == LastAttrLower(attrs, "type")
    ensures inputName == LastAttrLower(attrs, "name")
  {
    inputType, inputName := "", "";
    var i := 0;
    while i < |attrs|
      invariant i <= |attrs|
      invariant inputType == LastAttrLower(attrs[..i], "type")
      invariant inputName == LastAttrLower(attrs[..i], "name")
    {
      var attr := attrs[i];
      assert attrs[..i + 1][..i] == attrs[..i];
      if attr.key == "type" {
        inputType := ToLower(attr.val);
      }
      if attr.key == "name" {
        inputName := ToLower(attr.val);
      }
      i := i + 1;
    }
    assert attrs[..i] == attrs;
  }

  /** `isLoginForm`: both flags, starting lowered, after walking the form. */
  method IsLoginForm(n: Node) returns (isLogin: bool)
    ensures isLogin == IsCredentialForm(n)
  {
    var flags := new FieldFlags();
    CheckFormFields(n, flags);
    isLogin := flags.hasPassword && flags.hasUsername;
  }

  /** No input is both: a password-typed input never counts as the
      username field. */
  lemma PasswordIsNotUsername(v: Node)
    ensures !(IsPasswordInput(v) && IsUsernameInput(v))
  {
  }

  /** An input without a `type` attribute counts as a text input: with a
      user-like name it is the username field. */
  lemma ImplicitTypeIsText(v: Node)
    requires IsInput(v) && forall i :: 0 <= i < |v.attr| ==> v.attr[i].key != "type"
    requires NameSuggestsUser(InputName(v))
    ensures IsUsernameInput(v)
  {
    LastAttrLowerAbsent(v.attr, "type");
  }

  /** A form with a username input and a password input among its children,
      in either order, is a login form. */
  lemma ChildFieldsMakeLoginForm(form: Node, i: nat, j: nat)
    requires i < |form.children| && j < |form.children|
    requires IsUsernameInput(form.children[i]) && IsPasswordInput(form.children[j])
    ensures IsCredentialForm(form)
  {
    var u, p := form.children[i], form.children[j];
    ChildInPreorder(form, i);
    ChildInPreorder(form, j);
    assert u in multiset(Preorder(u)) && p in multiset(Preorder(p));
    assert u in Preorder(form) && p in Preorder(form);
  }
}
