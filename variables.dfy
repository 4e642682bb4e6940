/**
 * The first half of `apply::run`: each entry of the descriptor's
 * `[variables]` table is resolved to a string (the literal, the default, or
 * one prompted answer) and inserted into the bindings, after which
 * `project_name`, `full_name` and `license` are inserted on top.
 */
module Variables {
  import opened Wrappers

  datatype VariableType = StringType | BooleanType

  /** A descriptor entry: a bare string, or a table whose fields are all optional. */
  datatype Entry =
    | Literal(value: string)
    | Spec(default: Option<string>, kind: Option<VariableType>, prompt: Option<string>)

  /** The `[variables]` table, in the order its hash map yields the entries. */
  type Declarations = seq<(string, Entry)>

  /** The keys inserted after the descriptor's entries. */
  const ReservedKeys: set<string> := {"project_name", "full_name", "license"}

  predicate NeedsPrompt(e: Entry) {
    e.Spec? && e.default.None?
  }

  predicate DistinctKeys(decls: Declarations) {
    forall a, b :: 0 <= a < b < |decls| ==> decls[a].0 != decls[b].0
  }

  function KeysOf(decls: Declarations): set<string>
  {
    set k | 0 <= k < |decls| :: decls[k].0
  }

  /** The label of the prompt for `key`; the entry's own `prompt` field is not used. */
  function PromptLabel(key: string): string
  {
    "Value of key: '" + key + "'?"
  }

  function Labels(keys: seq<string>): (r: seq<string>)
    ensures |r| == |keys|
    ensures forall k :: 0 <= k < |keys| ==> r[k] == PromptLabel(keys[k])
  {
    seq(|keys|, k requires 0 <= k < |keys| => PromptLabel(keys[k]))
  }

  /** The keys that are prompted for, in the order the prompts appear. */
  function PromptedKeys(decls: Declarations): seq<string>
  {
    if decls == [] then []
    else
      var last := decls[|decls| - 1];
      PromptedKeys(decls[..|decls| - 1]) + (if NeedsPrompt(last.1) then [last.0] else [])
  }

  /** The value of one entry; `next` is the index of the answer its prompt would get. */
  function EntryValue(e: Entry, answers: seq<string>, next: nat): string
    requires NeedsPrompt(e) ==> next < |answers|
  {
    match e
    case Literal(v) => v
    case Spec(d, _, _) => if d.Some? then d.value else answers[next]
  }

  /** The map the loop over the descriptor builds, answers being consumed in prompt order. */
  function Declared(decls: Declarations, answers: seq<string>): map<string, string>
    requires |PromptedKeys(decls)| <= |answers|
  {
    if decls == [] then map[]
    else
      var init := decls[..|decls| - 1];
      var last := decls[|decls| - 1];
      Declared(init, answers)[last.0 := EntryValue(last.1, answers, |PromptedKeys(init)|)]
  }

  /** The final bindings: the declared map with the three metadata keys inserted last. */
  function Bindings(declared: map<string, string>, projectName: string, fullName: string, license: string)
    : (b: map<string, string>)
    ensures b.Keys == declared.Keys + ReservedKeys
    ensures b["project_name"] == projectName && b["full_name"] == fullName && b["license"] == license
    ensures forall k :: k in declared && k !in ReservedKeys ==> b[k] == declared[k]
  {
    declared["project_name" := projectName]["full_name" := fullName]["license" := license]
  }

  /**
   * The loop over the descriptor's entries. Each entry without a default
   * shows one prompt and takes the next answer; when the answers run out,
   * the prompt has been shown and its `unwrap` fails (`None`).
   */
  method ResolveDeclared(decls: Declarations, answers: seq<string>)
    returns (data: Option<map<string, string>>, prompts: seq<string>)
    ensures data.Some? <==> |PromptedKeys(decls)| <= |answers|
    ensures data.Some? ==> data.value == Declared(decls, answers) && prompts == Labels(PromptedKeys(decls))
    ensures data.None? ==> prompts == Labels(PromptedKeys(decls)[..|answers| + 1])
  {
    var m: map<string, string> := map[];
    prompts := [];
    var i := 0;
    while i < |decls|
      invariant 0 <= i <= |decls|
      invariant |PromptedKeys(decls[..i])| <= |answers|
      invariant prompts == Labels(PromptedKeys(decls[..i]))
      invariant m == Declared(decls[..i], answers)
    {
      var (key, entry) := decls[i];
      assert decls[..i + 1][..i] == decls[..i];
      var v: string;
      match entry {
        case Literal(s) =>
          v := s;
        case Spec(d, _, _) =>
          if d.Some? {
            v := d.value;
          } else {
            prompts := prompts + [PromptLabel(key)];
            if |prompts| > |answers| {
              PromptedKeysPrefix(decls, i + 1);
              return None, prompts;
            }
            v := answers[|prompts| - 1];
          }
      }
      m := m[key := v];
      i := i + 1;
    }
    assert decls[..i] == decls;
    data := Some(m);
  }

  /** Prompts for a prefix of the entries come first, in the same order. */
  lemma {:induction false} PromptedKeysPrefix(decls: Declarations, j: nat)
    requires j <= |decls|
    ensures PromptedKeys(decls[..j]) <= PromptedKeys(decls)
    decreases |decls|
  {
    if j < |decls| {
      var init := decls[..|decls| - 1];
      assert init[..j] == decls[..j];
      PromptedKeysPrefix(init, j);
    } else {
      assert decls[..j] == decls;
    }
  }

  /** Entry `j` that needs a prompt is prompted for, at the position counted by the prompts before it. */
  lemma {:induction false} PromptedAt(decls: Declarations, j: nat)
    requires j < |decls| && NeedsPrompt(decls[j].1)
    ensures |PromptedKeys(decls[..j])| < |PromptedKeys(decls)|
    ensures PromptedKeys(decls)[|PromptedKeys(decls[..j])|] == decls[j].0
  {
    var pre := decls[..j + 1];
    assert pre[..j] == decls[..j];
    PromptedKeysPrefix(decls, j + 1);
  }

  /** A descriptor made of literals and defaults shows no prompt at all. */
  lemma {:induction false} NoPromptWithoutUndefaulted(decls: Declarations)
    requires forall k :: 0 <= k < |decls| ==> !NeedsPrompt(decls[k].1)
    ensures PromptedKeys(decls) == []
  {
    if decls != [] {
      NoPromptWithoutUndefaulted(decls[..|decls| - 1]);
    }
  }

  /** Only keys whose entry has no default are ever prompted for. */
  lemma {:induction false} PromptedKeysAreUndefaulted(decls: Declarations)
    ensures forall key :: key in PromptedKeys(decls) ==>
              exists k :: 0 <= k < |decls| && decls[k].0 == key && NeedsPrompt(decls[k].1)
  {
    if decls != [] {
      var n := |decls| - 1;
      var init := decls[..n];
      PromptedKeysAreUndefaulted(init);
      forall key | key in PromptedKeys(decls)
        ensures exists k :: 0 <= k < |decls| && decls[k].0 == key && NeedsPrompt(decls[k].1)
      {
        if key in PromptedKeys(init) {
          var k' :| 0 <= k' < |init| && init[k'].0 == key && NeedsPrompt(init[k'].1);
          assert decls[k'] == init[k'];
        }
      }
    }
  }

  /** With distinct keys, each key without a default is prompted for exactly once, and every other key never. */
  lemma {:induction false} OnePromptPerUndefaultedKey(decls: Declarations)
    requires DistinctKeys(decls)
    ensures forall k :: 0 <= k < |decls| ==>
              multiset(PromptedKeys(decls))[decls[k].0] == if NeedsPrompt(decls[k].1) then 1 else 0
  {
    if decls != [] {
      var n := |decls| - 1;
      var init := decls[..n];
      var last := decls[n];
      OnePromptPerUndefaultedKey(init);
      PromptedKeysAreUndefaulted(init);
      var extra := if NeedsPrompt(last.1) then [last.0] else [];
      assert PromptedKeys(decls) == PromptedKeys(init) + extra;
      assert last.0 !in PromptedKeys(init);
      forall k | 0 <= k < |decls|
        ensures multiset(PromptedKeys(decls))[decls[k].0] == if NeedsPrompt(decls[k].1) then 1 else 0
      {
        if k < n {
          assert init[k] == decls[k];
          assert decls[k].0 != last.0;
        }
      }
    }
  }

  /** The declared map has exactly the descriptor's keys. */
  lemma {:induction false} DeclaredKeys(decls: Declarations, answers: seq<string>)
    requires |PromptedKeys(decls)| <= |answers|
    ensures Declared(decls, answers).Keys == KeysOf(decls)
  {
    if decls != [] {
      var init := decls[..|decls| - 1];
      DeclaredKeys(init, answers);
      assert KeysOf(decls) == KeysOf(init) + {decls[|decls| - 1].0} by {
        forall key | key in KeysOf(decls) ensures key in KeysOf(init) + {decls[|decls| - 1].0} {
          var k :| 0 <= k < |decls| && decls[k].0 == key;
          if k < |decls| - 1 {
            assert init[k] == decls[k];
          }
        }
        forall key | key in KeysOf(init) ensures key in KeysOf(decls) {
          var k :| 0 <= k < |init| && init[k].0 == key;
          assert decls[k] == init[k];
        }
      }
    }
  }

  /** The last entry for a key decides its value: that entry's value, given the answers consumed before it. */
  lemma {:induction false} DeclaredValue(decls: Declarations, answers: seq<string>, j: nat)
    requires |PromptedKeys(decls)| <= |answers|
    requires j < |decls|
    requires forall l :: j < l < |decls| ==> decls[l].0 != decls[j].0
    ensures NeedsPrompt(decls[j].1) ==> |PromptedKeys(decls[..j])| < |answers|
    ensures decls[j].0 in Declared(decls, answers)
    ensures Declared(decls, answers)[decls[j].0] == EntryValue(decls[j].1, answers, |PromptedKeys(decls[..j])|)
  {
    if NeedsPrompt(decls[j].1) {
      PromptedAt(decls, j);
    }
    var n := |decls| - 1;
    var init := decls[..n];
    if j < n {
      assert init[j] == decls[j];
      assert init[..j] == decls[..j];
      forall l | j < l < |init| ensures init[l].0 != init[j].0 {
        assert init[l] == decls[l];
      }
      DeclaredValue(init, answers, j);
    } else {
      assert init == decls[..j];
    }
  }

  /**
   * In the final bindings, a descriptor key other than the three metadata
   * keys is bound to its literal, to its default, or to the answer of its
   * own prompt.
   */
  lemma DeclaredEntryBinding(decls: Declarations, answers: seq<string>, j: nat,
                             projectName: string, fullName: string, license: string)
    requires DistinctKeys(decls)
    requires |PromptedKeys(decls)| <= |answers|
    requires j < |decls| && decls[j].0 !in ReservedKeys
    ensures var b := Bindings(Declared(decls, answers), projectName, fullName, license);
            && decls[j].0 in b
            && (decls[j].1.Literal? ==> b[decls[j].0] == decls[j].1.value)
            && (decls[j].1.Spec? && decls[j].1.default.Some? ==> b[decls[j].0] == decls[j].1.default.value)
            && (NeedsPrompt(decls[j].1) ==>
                  exists n :: 0 <= n < |PromptedKeys(decls)| && PromptedKeys(decls)[n] == decls[j].0
                              && b[decls[j].0] == answers[n])
  {
    DeclaredValue(decls, answers, j);
    if NeedsPrompt(decls[j].1) {
      PromptedAt(decls, j);
    }
  }
}
