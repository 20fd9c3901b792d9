/** The in-memory cat record store: an ordered, append-only list of `Cat`
    records with insertion, enumeration and first-match lookup by name. */
module Cats {

  /** A cat record. `age` is kept as an integer: the store never computes with it. */
  datatype Cat = Cat(name: string, age: int, breed: string)

  /** The outcome of a lookup: the matching record, or the not-found error
      that carries the name that was asked for. */
  datatype FindResult = Found(cat: Cat) | NotFound(name: string)
  {
    /** The text of the not-found error: `Cat <name> not found`. */
    function Message(): (m: string)
      requires NotFound?
      ensures |m| == |name| + 14
      ensures m[..4] == "Cat " && m[4..4 + |name|] == name && m[4 + |name|..] == " not found"
    {
      "Cat " + name + " not found"
    }
  }

  /** `i` is the smallest index of `cats` whose record is named `name`. */
  ghost predicate IsFirstMatch(cats: seq<Cat>, name: string, i: int)
  {
    0 <= i < |cats| && cats[i].name == name &&
    forall j :: 0 <= j < i ==> cats[j].name != name
  }

  /** No record of `cats` is named `name`. */
  ghost predicate NoneNamed(cats: seq<Cat>, name: string)
  {
    forall j :: 0 <= j < |cats| ==> cats[j].name != name
  }

  /** Reference definition of the lookup: the front-to-back search for the
      first record whose name is exactly `name`; NotFound when there is none. */
  function FindFirst(cats: seq<Cat>, name: string): (r: FindResult)
  {
    if cats == [] then NotFound(name)
    else if cats[0].name == name then Found(cats[0])
    else FindFirst(cats[1..], name)
  }

  /** FindFirst finds exactly the first record with the name, and fails,
      carrying the query, exactly when no record has it. */
  lemma {:induction false} FindFirstCharacterized(cats: seq<Cat>, name: string)
    ensures FindFirst(cats, name).Found? ==>
              exists i :: IsFirstMatch(cats, name, i) && FindFirst(cats, name).cat == cats[i]
    ensures FindFirst(cats, name).NotFound? <==> NoneNamed(cats, name)
    ensures FindFirst(cats, name).NotFound? ==> FindFirst(cats, name).name == name
  {
    if cats == [] {
    } else if cats[0].name == name {
      assert IsFirstMatch(cats, name, 0);
    } else {
      var rest := cats[1..];
      FindFirstCharacterized(rest, name);
      if FindFirst(rest, name).Found? {
        var i :| IsFirstMatch(rest, name, i) && FindFirst(rest, name).cat == rest[i];
        assert IsFirstMatch(cats, name, i + 1);
      } else {
        assert NoneNamed(cats, name) by {
          forall j | 0 <= j < |cats| ensures cats[j].name != name {
            if j > 0 { assert cats[j] == rest[j - 1]; }
          }
        }
      }
    }
  }

  /** The first match is unique: at most one index is the first one
      holding a given name. */
  lemma FirstMatchUnique(cats: seq<Cat>, name: string, i: int, k: int)
    requires IsFirstMatch(cats, name, i) && IsFirstMatch(cats, name, k)
    ensures i == k
  {
  }

  /** With duplicate names, the lookup returns the record at the first
      matching index, that is the earliest-inserted one. */
  lemma FirstMatchIsFound(cats: seq<Cat>, name: string, i: int)
    requires IsFirstMatch(cats, name, i)
    ensures FindFirst(cats, name) == Found(cats[i])
  {
    FindFirstCharacterized(cats, name);
    var k :| IsFirstMatch(cats, name, k) && FindFirst(cats, name).cat == cats[k];
    FirstMatchUnique(cats, name, i, k);
  }

  /** Appending a record never changes a lookup that already succeeds:
      the earlier-inserted record keeps winning. */
  lemma {:induction false} FindFirstAppendKeepsFound(cats: seq<Cat>, c: Cat, name: string)
    requires FindFirst(cats, name).Found?
    ensures FindFirst(cats + [c], name) == FindFirst(cats, name)
  {
    assert cats != [];
    if cats[0].name != name {
      assert (cats + [c])[1..] == cats[1..] + [c];
      FindFirstAppendKeepsFound(cats[1..], c, name);
    }
  }

  /** When no earlier record is named `c.name`, looking `c.name` up after
      appending `c` yields `c` itself. */
  lemma {:induction false} FindFirstAfterAppend(cats: seq<Cat>, c: Cat)
    requires NoneNamed(cats, c.name)
    ensures FindFirst(cats + [c], c.name) == Found(c)
  {
    if cats != [] {
      assert (cats + [c])[1..] == cats[1..] + [c];
      assert NoneNamed(cats[1..], c.name) by {
        forall j | 0 <= j < |cats[1..]| ensures cats[1..][j].name != c.name {
          assert cats[1..][j] == cats[j + 1];
        }
      }
      FindFirstAfterAppend(cats[1..], c);
    }
  }

  /** The record store. `cats` is the ordered backing list, starting empty;
      records are only ever appended to it. */
  class CatsService {
    var cats: seq<Cat>

    constructor ()
      ensures cats == []
    {
      cats := [];
    }

    /** Appends `cat` at the end; every earlier record stays where it was. */
    method Create(cat: Cat)
      modifies this
      ensures cats == old(cats) + [cat]
      ensures |cats| == |old(cats)| + 1 && cats[|cats| - 1] == cat
      ensures cats[..|old(cats)|] == old(cats)
    {
      cats := cats + [cat];
    }

    /** Every stored record, in insertion order; the store is not changed. */
    method FindAll() returns (all: seq<Cat>)
      ensures all == cats
    {
      all := cats;
    }

    /** Scans the store from the front for the first record named exactly
        `name`; NotFound carrying `name` when no record has it. The store is
        not changed. */
    method FindOne(name: string) returns (r: FindResult)
      ensures r == FindFirst(cats, name)
      ensures r.Found? ==> exists i :: IsFirstMatch(cats, name, i) && r.cat == cats[i]
      ensures r.NotFound? <==> NoneNamed(cats, name)
      ensures r.NotFound? ==> r.name == name
    {
      var i := 0;
      while i < |cats|
        invariant 0 <= i <= |cats|
        invariant NoneNamed(cats[..i], name)
        invariant FindFirst(cats[i..], name) == FindFirst(cats, name)
      {
        if cats[i].name == name {
          r := Found(cats[i]);
          FindFirstCharacterized(cats, name);
          return;
        }
        assert cats[i..][1..] == cats[i + 1..];
        assert cats[..i + 1] == cats[..i] + [cats[i]];
        i := i + 1;
      }
      assert cats[..i] == cats;
      r := NotFound(name);
      FindFirstCharacterized(cats, name);
    }
  }
}
