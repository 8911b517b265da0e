/**
 * The name-mangling registries behind the `@register` decorators of
 * `web/command.py` and `layouts/register.py`: a function is stored under
 * its `__name__` with every underscore turned into a space, together with
 * its docstring, and handed back unchanged.
 */
module Registry {
  import Text
  import opened Common

  /** A Python function object as `register` sees it: body, `__name__`, `__doc__`. */
  datatype PyFunc<F> = PyFunc(body: F, name: string, doc: Option<string>)

  /** The registered record (`Command` / `LayoutData`): function, display name, description. */
  datatype Entry<F> = Entry(func: PyFunc<F>, name: string, desc: Option<string>)

  /** The module-level dict (`COMMANDS` / `LAYOUTS`). */
  type Reg<F> = map<string, Entry<F>>

  /** Every key is the name of the entry stored under it. */
  predicate Consistent<F>(reg: Reg<F>)
  {
    forall k :: k in reg ==> reg[k].name == k
  }

  /** `func.__name__.replace("_", " ")`. */
  function DisplayName(name: string): string
  {
    Text.ReplaceChar(name, '_', ' ')
  }

  /**
   * The display name keeps every character of the function name except
   * underscores, which become spaces; so it never contains an underscore.
   */
  lemma DisplayNameSpec(name: string)
    ensures |DisplayName(name)| == |name|
    ensures '_' !in DisplayName(name)
    ensures forall i :: 0 <= i < |name| ==>
              DisplayName(name)[i] == if name[i] == '_' then ' ' else name[i]
  {
    Text.ReplaceCharSpec(name, '_', ' ');
  }

  /** A display name is recognised by comparing it position by position. */
  lemma DisplayNameIs(name: string, expected: string)
    requires |name| == |expected|
    requires forall i :: 0 <= i < |name| ==> expected[i] == if name[i] == '_' then ' ' else name[i]
    ensures DisplayName(name) == expected
  {
    DisplayNameSpec(name);
  }

  /** `register(func)`: the updated registry and the returned function. */
  function Register<F>(reg: Reg<F>, f: PyFunc<F>): (r: (Reg<F>, PyFunc<F>))
    ensures r.1 == f
    ensures r.0.Keys == reg.Keys + {DisplayName(f.name)}
    ensures r.0[DisplayName(f.name)] == Entry(f, DisplayName(f.name), f.doc)
    ensures forall k :: k in reg && k != DisplayName(f.name) ==> r.0[k] == reg[k]
    ensures Consistent(reg) ==> Consistent(r.0)
  {
    var name := DisplayName(f.name);
    (reg[name := Entry(f, name, f.doc)], f)
  }

  /** Registers the functions in order, as a module's decorators do at import time. */
  function RegisterAll<F>(reg: Reg<F>, fs: seq<PyFunc<F>>): Reg<F>
    decreases |fs|
  {
    if |fs| == 0 then reg else RegisterAll(Register(reg, fs[0]).0, fs[1..])
  }

  /** The names `RegisterAll` adds, in registration order. */
  function Names<F>(fs: seq<PyFunc<F>>): (r: seq<string>)
    ensures |r| == |fs|
    ensures forall i :: 0 <= i < |fs| ==> r[i] == DisplayName(fs[i].name)
  {
    seq(|fs|, i requires 0 <= i < |fs| => DisplayName(fs[i].name))
  }

  /** Registering keeps every key equal to its entry's name. */
  lemma {:induction false} RegisterAllConsistent<F>(reg: Reg<F>, fs: seq<PyFunc<F>>)
    requires Consistent(reg)
    ensures Consistent(RegisterAll(reg, fs))
    decreases |fs|
  {
    if |fs| > 0 {
      RegisterAllConsistent(Register(reg, fs[0]).0, fs[1..]);
    }
  }

  /** The registered keys are the old ones plus every added display name. */
  lemma {:induction false} RegisterAllKeys<F>(reg: Reg<F>, fs: seq<PyFunc<F>>)
    ensures forall k :: k in RegisterAll(reg, fs) <==> k in reg || k in Names(fs)
    decreases |fs|
  {
    if |fs| > 0 {
      RegisterAllKeys(Register(reg, fs[0]).0, fs[1..]);
      assert Names(fs) == [Names(fs)[0]] + Names(fs[1..]);
    }
  }

  /**
   * With pairwise distinct display names, each function ends up stored under
   * its display name together with its docstring, and keys no function
   * claims keep their old entries.
   */
  lemma {:induction false} RegisterAllEntries<F>(reg: Reg<F>, fs: seq<PyFunc<F>>)
    requires forall i, j :: 0 <= i < j < |fs| ==> Names(fs)[i] != Names(fs)[j]
    ensures forall i :: 0 <= i < |fs| ==>
              Names(fs)[i] in RegisterAll(reg, fs) &&
              RegisterAll(reg, fs)[Names(fs)[i]] == Entry(fs[i], Names(fs)[i], fs[i].doc)
    ensures forall k :: k in reg && k !in Names(fs) ==>
              k in RegisterAll(reg, fs) && RegisterAll(reg, fs)[k] == reg[k]
    decreases |fs|
  {
    if |fs| > 0 {
      var reg1 := Register(reg, fs[0]).0;
      assert forall i :: 0 <= i < |fs[1..]| ==> Names(fs[1..])[i] == Names(fs)[i + 1];
      RegisterAllEntries(reg1, fs[1..]);
      RegisterAllKeys(reg1, fs[1..]);
      assert Names(fs) == [Names(fs)[0]] + Names(fs[1..]);
      forall i | 0 <= i < |fs|
        ensures Names(fs)[i] in RegisterAll(reg, fs)
        ensures RegisterAll(reg, fs)[Names(fs)[i]] == Entry(fs[i], Names(fs)[i], fs[i].doc)
      {
        if i > 0 {
          assert fs[i] == fs[1..][i - 1];
        } else {
          assert Names(fs)[0] !in Names(fs[1..]);
        }
      }
    }
  }
}
