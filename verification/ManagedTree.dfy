/**
 The directory trees that retention verifies and empties. Emptying goes depth first, and a file
 is renamed to a retired name before it is unlinked; every step on the way leaves a tree that
 verifies again.
 */
module ManagedTree {
  import opened Outcomes

  const MAXIMUM_TREE_ENTRIES: nat := 4608
  const MAXIMUM_TREE_DEPTH: nat := 20

  /** Managed means the right owner, mode, device and link count. */
  datatype Node =
    | File(managed: bool, retired: bool)
    | Directory(managed: bool, children: seq<Node>)

  datatype Tree = Tree(managed: bool, children: seq<Node>)

  function Count(nodes: seq<Node>): nat {
    if nodes == [] then 0
    else (if nodes[0].File? then 1 else 1 + Count(nodes[0].children)) + Count(nodes[1..])
  }

  predicate AllManaged(nodes: seq<Node>) {
    nodes == [] ||
    (nodes[0].managed && (nodes[0].Directory? ==> AllManaged(nodes[0].children)) && AllManaged(nodes[1..]))
  }

  /** How many directories lie within each other. */
  function Depth(nodes: seq<Node>): nat {
    if nodes == [] then 0
    else
      var first := if nodes[0].File? then 0 else 1 + Depth(nodes[0].children);
      var rest := Depth(nodes[1..]);
      if first >= rest then first else rest
  }

  predicate TreeIsManaged(tree: Tree) {
    && tree.managed && AllManaged(tree.children)
    && Count(tree.children) <= MAXIMUM_TREE_ENTRIES
    && Depth(tree.children) <= MAXIMUM_TREE_DEPTH
  }

  // ---------------------------------------------------------------- places in a tree

  /** The node that a list of positions leads to, one per level. */
  function NodeAt(nodes: seq<Node>, place: seq<nat>): Option<Node>
    decreases |place|
  {
    if place == [] || place[0] >= |nodes| then None
    else if |place| == 1 then Some(nodes[place[0]])
    else if nodes[place[0]].File? then None
    else NodeAt(nodes[place[0]].children, place[1..])
  }

  predicate Exists(nodes: seq<Node>, place: seq<nat>) {
    NodeAt(nodes, place).Some?
  }

  function Below(place: seq<nat>): seq<nat> {
    [0] + place
  }

  function Beside(place: seq<nat>): seq<nat>
    requires place != []
  {
    [place[0] + 1] + place[1..]
  }

  /** Every place is the first node, below it, or beside it. */
  lemma PlacesSplit(nodes: seq<Node>, place: seq<nat>)
    requires nodes != []
    ensures NodeAt(nodes, [0]) == Some(nodes[0])
    ensures place != [] && nodes[0].Directory? ==> NodeAt(nodes, Below(place)) == NodeAt(nodes[0].children, place)
    ensures place != [] ==> NodeAt(nodes, Beside(place)) == NodeAt(nodes[1..], place)
    ensures Exists(nodes, place) && place[0] == 0 && |place| > 1 ==>
              nodes[0].Directory? && place == Below(place[1..]) && Exists(nodes[0].children, place[1..])
    ensures Exists(nodes, place) && place[0] > 0 ==>
              place == Beside([place[0] - 1] + place[1..]) && Exists(nodes[1..], [place[0] - 1] + place[1..])
  {
    if place != [] {
      assert Below(place)[1..] == place && Beside(place)[1..] == place[1..];
      if place[0] > 0 {
        var before := [place[0] - 1] + place[1..];
        assert before[1..] == place[1..];
        assert Beside(before) == place;
      }
    }
  }

  /** Managed through and through means that every place is. */
  lemma {:induction false} AllManagedMeansEveryPlace(nodes: seq<Node>)
    ensures AllManaged(nodes) <==> forall place :: Exists(nodes, place) ==> NodeAt(nodes, place).value.managed
  {
    if nodes != [] {
      AllManagedMeansEveryPlace(nodes[1..]);
      if nodes[0].Directory? {
        AllManagedMeansEveryPlace(nodes[0].children);
      }
      if AllManaged(nodes) {
        forall place | Exists(nodes, place) ensures NodeAt(nodes, place).value.managed {
          PlacesSplit(nodes, place);
          if place[0] > 0 {
            var before := [place[0] - 1] + place[1..];
            PlacesSplit(nodes, before);
            assert Exists(nodes[1..], before);
          } else if |place| > 1 {
            PlacesSplit(nodes, place[1..]);
            assert Exists(nodes[0].children, place[1..]);
          }
        }
      } else {
        var place := UnmanagedPlace(nodes);
        assert Exists(nodes, place);
      }
    }
  }

  lemma {:induction false} UnmanagedPlace(nodes: seq<Node>) returns (place: seq<nat>)
    requires !AllManaged(nodes)
    ensures Exists(nodes, place) && !NodeAt(nodes, place).value.managed
  {
    place := [0];
    PlacesSplit(nodes, place);
    if nodes[0].managed {
      if nodes[0].Directory? && !AllManaged(nodes[0].children) {
        place := UnmanagedPlace(nodes[0].children);
        PlacesSplit(nodes, place);
        place := Below(place);
      } else {
        place := UnmanagedPlace(nodes[1..]);
        PlacesSplit(nodes, place);
        place := Beside(place);
      }
    }
  }

  predicate DirectoryExists(nodes: seq<Node>, place: seq<nat>) {
    Exists(nodes, place) && NodeAt(nodes, place).value.Directory?
  }

  lemma WithinDepth(nodes: seq<Node>, place: seq<nat>)
    requires nodes != [] && DirectoryExists(nodes, place)
    requires forall other :: DirectoryExists(nodes[1..], other) ==> |other| <= Depth(nodes[1..])
    requires nodes[0].Directory? ==>
               forall other :: DirectoryExists(nodes[0].children, other) ==> |other| <= Depth(nodes[0].children)
    ensures |place| <= Depth(nodes)
  {
    PlacesSplit(nodes, place);
    if place[0] > 0 {
      var before := [place[0] - 1] + place[1..];
      PlacesSplit(nodes, before);
      assert DirectoryExists(nodes[1..], before);
    } else if |place| > 1 {
      PlacesSplit(nodes, place[1..]);
      assert DirectoryExists(nodes[0].children, place[1..]);
    } else {
      assert place == [0];
    }
  }

  /** No directory lies deeper than the depth, and one lies just as deep. */
  lemma {:induction false} DepthIsOfTheDeepest(nodes: seq<Node>) returns (deepest: seq<nat>)
    ensures forall place :: DirectoryExists(nodes, place) ==> |place| <= Depth(nodes)
    ensures Depth(nodes) > 0 ==> DirectoryExists(nodes, deepest) && |deepest| == Depth(nodes)
  {
    deepest := [];
    if nodes != [] {
      var beside := DepthIsOfTheDeepest(nodes[1..]);
      PlacesSplit(nodes, beside);
      var below := [];
      if nodes[0].Directory? {
        below := DepthIsOfTheDeepest(nodes[0].children);
        PlacesSplit(nodes, below);
      }
      forall place | DirectoryExists(nodes, place) ensures |place| <= Depth(nodes) {
        WithinDepth(nodes, place);
      }
      if Depth(nodes) > 0 {
        deepest := if nodes[0].File? || 1 + Depth(nodes[0].children) < Depth(nodes[1..]) then Beside(beside)
                   else if Depth(nodes[0].children) == 0 then [0]
                   else Below(below);
      }
    }
  }

  function PlacesBelow(places: set<seq<nat>>): set<seq<nat>> {
    set place | place in places :: Below(place)
  }

  function PlacesBeside(places: set<seq<nat>>): set<seq<nat>>
    requires [] !in places
  {
    set place | place in places :: Beside(place)
  }

  lemma {:induction false} BelowKeepsSize(places: set<seq<nat>>)
    ensures |PlacesBelow(places)| == |places|
    decreases places
  {
    if places != {} {
      var place :| place in places;
      BelowKeepsSize(places - {place});
      forall other | other in places && other != place ensures Below(other) != Below(place) {
        assert Below(other)[1..] == other && Below(place)[1..] == place;
      }
      assert PlacesBelow(places) == PlacesBelow(places - {place}) + {Below(place)};
    }
  }

  lemma BesideDiffers(a: seq<nat>, b: seq<nat>)
    requires a != [] && b != [] && a != b
    ensures Beside(a) != Beside(b)
  {
    assert Beside(a)[0] == a[0] + 1 && Beside(a)[1..] == a[1..];
    assert Beside(b)[0] == b[0] + 1 && Beside(b)[1..] == b[1..];
    assert a == [a[0]] + a[1..] && b == [b[0]] + b[1..];
  }

  lemma {:induction false} BesideKeepsSize(places: set<seq<nat>>)
    requires [] !in places
    ensures |PlacesBeside(places)| == |places|
    decreases places
  {
    if places != {} {
      var place :| place in places;
      BesideKeepsSize(places - {place});
      forall other | other in places && other != place ensures Beside(other) != Beside(place) {
        BesideDiffers(other, place);
      }
      assert PlacesBeside(places) == PlacesBeside(places - {place}) + {Beside(place)};
    }
  }

  /** The count is the number of places. */
  lemma {:induction false} CountIsOfPlaces(nodes: seq<Node>) returns (places: set<seq<nat>>)
    ensures |places| == Count(nodes) && forall place :: place in places <==> Exists(nodes, place)
  {
    places := {};
    if nodes != [] {
      var beside := CountIsOfPlaces(nodes[1..]);
      var below := {};
      if nodes[0].Directory? {
        below := CountIsOfPlaces(nodes[0].children);
      }
      assert [] !in beside && [] !in below;
      BelowKeepsSize(below);
      BesideKeepsSize(beside);
      places := {[0]} + PlacesBelow(below) + PlacesBeside(beside);
      forall place ensures place in places <==> Exists(nodes, place) {
        PlaceIsCounted(nodes, below, beside, place);
      }
      PlacesAreApart(below, beside);
    }
  }

  lemma PlacesAreApart(below: set<seq<nat>>, beside: set<seq<nat>>)
    requires [] !in below && [] !in beside
    ensures |{[0]} + PlacesBelow(below) + PlacesBeside(beside)| == 1 + |PlacesBelow(below)| + |PlacesBeside(beside)|
  {
    forall place | place in PlacesBelow(below) ensures |place| > 1 && place[0] == 0 {}
    forall place | place in PlacesBeside(beside) ensures place[0] > 0 {}
    assert {[0]} !! PlacesBelow(below);
    assert {[0]} + PlacesBelow(below) !! PlacesBeside(beside);
  }

  lemma PlaceIsCounted(nodes: seq<Node>, below: set<seq<nat>>, beside: set<seq<nat>>, place: seq<nat>)
    requires nodes != [] && [] !in below && [] !in beside
    requires forall other :: other in beside <==> Exists(nodes[1..], other)
    requires if nodes[0].Directory? then forall other :: other in below <==> Exists(nodes[0].children, other)
             else below == {}
    ensures place in {[0]} + PlacesBelow(below) + PlacesBeside(beside) <==> Exists(nodes, place)
  {
    PlacesSplit(nodes, place);
    if Exists(nodes, place) {
      if place[0] > 0 {
        var before := [place[0] - 1] + place[1..];
        assert before in beside && Beside(before) == place;
        assert place in PlacesBeside(beside);
      } else if |place| > 1 {
        assert place[1..] in below && Below(place[1..]) == place;
        assert place in PlacesBelow(below);
      } else {
        assert place == [0];
      }
    } else if place in PlacesBelow(below) {
      var other :| other in below && place == Below(other);
      PlacesSplit(nodes, other);
      assert false;
    } else if place in PlacesBeside(beside) {
      var other :| other in beside && place == Beside(other);
      PlacesSplit(nodes, other);
      assert false;
    }
  }

  /**
   Which trees verify: the root and every place in it are managed, there are at most 4608 places,
   and no directory lies more than twenty levels down.
   */
  lemma TreeIsManagedExactly(tree: Tree, places: set<seq<nat>>)
    requires forall place :: place in places <==> Exists(tree.children, place)
    ensures TreeIsManaged(tree) <==>
      && tree.managed && |places| <= 4608
      && (forall place :: Exists(tree.children, place) ==> NodeAt(tree.children, place).value.managed)
      && (forall place :: DirectoryExists(tree.children, place) ==> |place| <= 20)
  {
    AllManagedMeansEveryPlace(tree.children);
    var deepest := DepthIsOfTheDeepest(tree.children);
    var counted := CountIsOfPlaces(tree.children);
    assert counted == places;
    if Depth(tree.children) > 20 {
      assert DirectoryExists(tree.children, deepest) && deepest in places;
    }
  }

  /** One durable step: rename a file, unlink a renamed one, or remove an empty directory. */
  function Reduce(nodes: seq<Node>): seq<Node>
    requires nodes != []
  {
    match nodes[0]
    case File(managed, false) => [File(managed, true)] + nodes[1..]
    case File(_, true) => nodes[1..]
    case Directory(managed, children) =>
      if children == [] then nodes[1..] else [Directory(managed, Reduce(children))] + nodes[1..]
  }

  /** The steps it takes to empty. */
  function Work(nodes: seq<Node>): nat {
    if nodes == [] then 0
    else
      (match nodes[0]
       case File(_, retired) => if retired then 1 else 2
       case Directory(_, children) => 1 + Work(children)) + Work(nodes[1..])
  }

  lemma {:induction false} WorkIsPositive(nodes: seq<Node>)
    requires nodes != []
    ensures Work(nodes) > 0
  {
  }

  lemma {:induction false} ReduceMakesProgress(nodes: seq<Node>)
    requires nodes != []
    ensures Work(Reduce(nodes)) == Work(nodes) - 1
  {
    var rest := nodes[1..];
    if nodes[0].Directory? && nodes[0].children != [] {
      ReduceMakesProgress(nodes[0].children);
      assert ([Directory(nodes[0].managed, Reduce(nodes[0].children))] + rest)[1..] == rest;
    } else if nodes[0].File? && !nodes[0].retired {
      assert ([File(nodes[0].managed, true)] + rest)[1..] == rest;
    }
  }

  /** No step adds an entry, deepens the tree, or leaves anything unmanaged. */
  lemma {:induction false} ReduceKeepsManaged(nodes: seq<Node>)
    requires nodes != [] && AllManaged(nodes)
    ensures AllManaged(Reduce(nodes)) && Count(Reduce(nodes)) <= Count(nodes) && Depth(Reduce(nodes)) <= Depth(nodes)
  {
    var rest := nodes[1..];
    if nodes[0].Directory? && nodes[0].children != [] {
      ReduceKeepsManaged(nodes[0].children);
      assert ([Directory(nodes[0].managed, Reduce(nodes[0].children))] + rest)[1..] == rest;
    } else if nodes[0].File? && !nodes[0].retired {
      assert ([File(nodes[0].managed, true)] + rest)[1..] == rest;
    }
  }

  function ReduceTree(tree: Tree): Tree
    requires tree.children != []
  {
    tree.(children := Reduce(tree.children))
  }

  lemma ReduceKeepsTree(tree: Tree)
    requires tree.children != []
    ensures Work(ReduceTree(tree).children) < Work(tree.children)
    ensures TreeIsManaged(tree) ==> TreeIsManaged(ReduceTree(tree))
  {
    ReduceMakesProgress(tree.children);
    if TreeIsManaged(tree) {
      ReduceKeepsManaged(tree.children);
    }
  }
}
