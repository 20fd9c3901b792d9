/** Clients of the record store: the unit tests of the service, each on a
    freshly constructed store, and the general insertion-order and
    read-only properties they exemplify. */
module CatsServiceSpec {
  import opened Cats

  /** A fresh store that receives `create(rs[0])`, ..., `create(rs[n-1])`
      lists exactly `rs`, in that order. */
  method CreateEachThenFindAll(rs: seq<Cat>) returns (all: seq<Cat>)
    ensures all == rs
  {
    var service := new CatsService();
    var i := 0;
    while i < |rs|
      invariant 0 <= i <= |rs|
      invariant service.cats == rs[..i]
    {
      service.Create(rs[i]);
      assert rs[..i + 1] == rs[..i] + [rs[i]];
      i := i + 1;
    }
    assert rs[..i] == rs;
    all := service.FindAll();
  }

  /** Two listings with no creation in between are equal. */
  method FindAllTwice(service: CatsService) returns (first: seq<Cat>, second: seq<Cat>)
    ensures first == second == service.cats
  {
    first := service.FindAll();
    second := service.FindAll();
  }

  /** Whatever a lookup answers, the store still lists the same records. */
  method FindOneThenFindAll(service: CatsService, name: string) returns (before: seq<Cat>, after: seq<Cat>)
    ensures before == after
  {
    before := service.FindAll();
    var _ := service.FindOne(name);
    after := service.FindAll();
  }

  /** A created cat is found by its name, provided no earlier record has it. */
  method CreateThenFindOne(service: CatsService, cat: Cat) returns (found: FindResult)
    requires NoneNamed(service.cats, cat.name)
    modifies service
    ensures service.cats == old(service.cats) + [cat]
    ensures found == Found(cat)
  {
    service.Create(cat);
    FindFirstAfterAppend(old(service.cats), cat);
    found := service.FindOne(cat.name);
  }

  /** Test "should create a cat": the created cat is among the listed ones. */
  method ShouldCreateACat() returns (cats: seq<Cat>)
    ensures Cat("テスト猫", 1, "テスト種") in cats
  {
    var service := new CatsService();
    var cat := Cat("テスト猫", 1, "テスト種");
    service.Create(cat);
    cats := service.FindAll();
  }

  /** Test "should find a cat by name": lookup by the created cat's name
      returns a record equal to it. */
  method ShouldFindACatByName() returns (found: FindResult)
    ensures found == Found(Cat("テスト猫2", 2, "テスト種2"))
  {
    var service := new CatsService();
    var cat := Cat("テスト猫2", 2, "テスト種2");
    service.Create(cat);
    found := service.FindOne("テスト猫2");
  }
}
