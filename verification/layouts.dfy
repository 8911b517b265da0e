/**
 * `layouts/register.py`: the `LAYOUTS` registry filled by the `@register`
 * decorator of the layout modules `default.py`, `big_price.py` and
 * `big_logo.py`. The drawing itself is not modelled; a layout is named by
 * which function it is.
 */
module Layouts {
  import opened Common
  import opened Registry

  /** The registered layout functions. */
  datatype LayoutFunc = DefaultLayout | BigPrice | BigLogo

  /** The decorated layout functions; `big_logo` has no docstring. */
  const Builtins: seq<PyFunc<LayoutFunc>> := [
    PyFunc(DefaultLayout, "default", Some("Default layout.")),
    PyFunc(BigPrice, "big_price", Some("Big price layout.")),
    PyFunc(BigLogo, "big_logo", None)
  ]

  lemma BuiltinNames()
    ensures Names(Builtins) == ["default", "big price", "big logo"]
  {
    var expected := ["default", "big price", "big logo"];
    forall i | 0 <= i < 3
      ensures Names(Builtins)[i] == expected[i]
    {
      BuiltinNameAt(i);
    }
  }

  lemma BuiltinNameAt(i: nat)
    requires i < 3
    ensures Names(Builtins)[i] == ["default", "big price", "big logo"][i]
  {
    if i == 0 {
      DisplayNameIs("default", "default");
    } else if i == 1 {
      DisplayNameIs("big_price", "big price");
    } else {
      DisplayNameIs("big_logo", "big logo");
    }
  }

  /**
   * Once the three layout modules are imported, `LAYOUTS` holds exactly
   * "default", "big price" and "big logo", each with its function and
   * docstring; "big logo" has no description.
   */
  lemma LayoutsContents(fs: seq<PyFunc<LayoutFunc>>, k: string)
    requires fs == Builtins
    ensures k in RegisterAll(map[], fs) <==> k in ["default", "big price", "big logo"]
    ensures forall i :: 0 <= i < |fs| ==>
              Names(fs)[i] in RegisterAll(map[], fs) &&
              RegisterAll(map[], fs)[Names(fs)[i]] == Entry(fs[i], Names(fs)[i], fs[i].doc)
  {
    BuiltinNames();
    RegisterAllKeys(map[], fs);
    ThreeDistinct(Names(fs));
    RegisterAllEntries(map[], fs);
  }

  lemma ThreeDistinct(n: seq<string>)
    requires n == ["default", "big price", "big logo"]
    ensures forall i, j :: 0 <= i < j < |n| ==> n[i] != n[j]
  {
    assert |n[0]| == 7 && |n[1]| == 9 && |n[2]| == 8;
  }

  /**
   * No registered layout name contains an underscore, so asking for a layout
   * by its Python function name with an underscore never finds it.
   */
  lemma UnderscoreNamesNeverRegistered(fs: seq<PyFunc<LayoutFunc>>, k: string)
    requires '_' in k
    ensures k !in RegisterAll(map[], fs)
  {
    RegisterAllKeys(map[], fs);
    if k in RegisterAll(map[], fs) {
      var i :| 0 <= i < |fs| && Names(fs)[i] == k;
      DisplayNameSpec(fs[i].name);
      assert false;
    }
  }
}
