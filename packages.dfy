/**
 * The packages the vendor editor keeps its generated objects in
 * (`vendor_edit/packages.py`): each package has a name and an optional outer
 * package, a dotted path name derived from that chain, and a lazily created
 * engine object that is cached once found or constructed.
 *
 * The engine is an `Engine` object whose `loaded` map answers
 * `find_object("Package", path)` and whose `constructed` log records each
 * `construct_object` call.
 */
module Packages {
  import opened Wrappers

  /** An engine object: one found by path name, or the `k`-th one constructed. */
  datatype UObject = Loaded(id: nat) | Constructed(k: nat)

  /** The arguments of one `construct_object("Package", outer, name, flags)` call. */
  datatype Construction = Construction(outer: Option<UObject>, name: string, flags: nat)

  /** The object flags every package is constructed with. */
  const PACKAGE_FLAGS: nat := 0x4000

  /** The part of the engine a package reaches. */
  class Engine {
    /** The packages `find_object` finds, by path name. */
    var loaded: map<string, UObject>
    /** The packages constructed so far, in order. */
    var constructed: seq<Construction>

    constructor (loaded: map<string, UObject>)
      ensures this.loaded == loaded && constructed == []
    {
      this.loaded := loaded;
      constructed := [];
    }

    /** `find_object("Package", path)`, with `None` for the `ValueError` a missing object raises. */
    method FindObject(path: string) returns (r: Option<UObject>)
      ensures path in loaded <==> r.Some?
      ensures r.Some? ==> r.value == loaded[path]
    {
      if path in loaded {
        r := Some(loaded[path]);
      } else {
        r := None;
      }
    }

    /** `construct_object("Package", outer, name, flags)`: a new object, logged. */
    method ConstructObject(outer: Option<UObject>, name: string, flags: nat) returns (obj: UObject)
      modifies this
      ensures constructed == old(constructed) + [Construction(outer, name, flags)]
      ensures obj == Constructed(|old(constructed)|)
      ensures loaded == old(loaded)
    {
      obj := Constructed(|constructed|);
      constructed := constructed + [Construction(outer, name, flags)];
    }
  }

  /** `Package`: a name, an optional outer package, and the cached engine object `_unreal`. */
  class Package {
    const name: string
    const outer: Package?
    /** The number of outer packages above this one. */
    ghost const depth: nat
    /** This package and every package above it. */
    ghost const Repr: set<Package>
    /** `_unreal`. */
    var cached: Option<UObject>

    /** The chain of outer packages is finite and `Repr` is exactly this package and those above it. */
    ghost predicate Valid()
      decreases depth
    {
      this in Repr
      && (outer == null ==> Repr == {this} && depth == 0)
      && (outer != null ==>
            depth == outer.depth + 1
            && Repr == {this} + outer.Repr
            && this !in outer.Repr
            && outer.Valid())
    }

    constructor (name: string, outer: Package?)
      requires outer != null ==> outer.Valid()
      ensures Valid()
      ensures this.name == name && this.outer == outer && cached == None
    {
      this.name := name;
      this.outer := outer;
      depth := if outer == null then 0 else outer.depth + 1;
      Repr := if outer == null then {this} else {this} + outer.Repr;
      cached := None;
    }

    /** `path_name`: the outer package's path name, a dot and this package's name; the root's path name is its name. */
    function PathName(): (p: string)
      requires Valid()
      ensures |p| >= |name| && p[|p| - |name|..] == name
      ensures outer == null ==> p == name
      decreases depth
    {
      if outer == null then name else outer.PathName() + "." + name
    }

    /** The names from the root package down to this one. */
    ghost function Names(): (names: seq<string>)
      requires Valid()
      ensures |names| == depth + 1 && names[|names| - 1] == name
      decreases depth
    {
      if outer == null then [name] else outer.Names() + [name]
    }

    /**
     * `unreal`: the cached object when there is one, with neither a lookup nor
     * a construction; otherwise the object found under the path name, or a
     * newly constructed one under the outer package's object (under nothing
     * for the root), which is then cached.
     */
    method Unreal(engine: Engine) returns (obj: UObject)
      requires Valid()
      modifies Repr, engine
      ensures cached == Some(obj)
      ensures old(cached).Some? ==> obj == old(cached).value && unchanged(engine) && unchanged(Repr)
      ensures old(cached).None? && PathName() in old(engine.loaded) ==>
        obj == old(engine.loaded)[PathName()] && unchanged(engine)
      ensures old(cached).None? && PathName() !in old(engine.loaded) ==>
        |engine.constructed| > |old(engine.constructed)|
        && obj == Constructed(|engine.constructed| - 1)
        && engine.constructed[|engine.constructed| - 1] ==
             Construction(if outer == null then None else outer.cached, name, PACKAGE_FLAGS)
      ensures engine.loaded == old(engine.loaded)
      ensures forall p :: p in Repr && old(p.cached).Some? ==> p.cached == old(p.cached)
      decreases depth
    {
      if cached.Some? {
        return cached.value;
      }
      var found := engine.FindObject(PathName());
      if found.Some? {
        obj := found.value;
      } else {
        var outerObj: Option<UObject> := None;
        if outer != null {
          var o := outer.Unreal(engine);
          outerObj := Some(o);
        }
        obj := engine.ConstructObject(outerObj, name, PACKAGE_FLAGS);
      }
      cached := Some(obj);
    }
  }

  /** The path name is the names from the root down, joined by dots. */
  function JoinDots(names: seq<string>): (s: string)
    requires names != []
  {
    if |names| == 1 then names[0] else JoinDots(names[..|names| - 1]) + "." + names[|names| - 1]
  }

  /** `path_name` agrees with joining the chain of names by dots. */
  lemma {:induction false} PathNameJoinsNames(p: Package)
    requires p.Valid()
    ensures p.PathName() == JoinDots(p.Names())
    decreases p.depth
  {
    if p.outer != null {
      PathNameJoinsNames(p.outer);
      var names := p.outer.Names() + [p.name];
      assert names[..|names| - 1] == p.outer.Names();
    }
  }

  /** The root package and the four packages the editor declares under it. */
  method DeclarePackages() returns (root: Package, invBalDef: Package, part: Package, partCollection: Package, prefix: Package)
    ensures root.Valid() && invBalDef.Valid() && part.Valid() && partCollection.Valid() && prefix.Valid()
    ensures root.PathName() == "vendor_edit"
    ensures invBalDef.PathName() == "vendor_edit.inv_bal_def"
    ensures part.PathName() == "vendor_edit.part"
    ensures partCollection.PathName() == "vendor_edit.part_collection"
    ensures prefix.PathName() == "vendor_edit.prefix"
  {
    root := new Package("vendor_edit", null);
    invBalDef := new Package("inv_bal_def", root);
    part := new Package("part", root);
    partCollection := new Package("part_collection", root);
    prefix := new Package("prefix", root);
  }
}
