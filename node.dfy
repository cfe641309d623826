/** Node.java: the mutable node of the layout, and the `ArrayList<Node>`
    objects it and the engine hold by reference. */
module NodeModel {

  /** A `java.util.ArrayList<Node>` object: a mutable list shared by reference. */
  class NodeList {
    var items: seq<Node>

    /** `new ArrayList<Node>()` */
    constructor ()
      ensures items == []
    {
      items := [];
    }

    /** `add`: appends at the end. */
    method Add(n: Node)
      modifies this
      ensures items == old(items) + [n]
    {
      items := items + [n];
    }

    /** `size` */
    function Size(): nat
      reads this
    {
      |items|
    }

    /** `get` */
    function Get(i: nat): Node
      reads this
      requires i < |items|
    {
      items[i]
    }
  }

  /** The fields of a node that the layout never writes. */
  datatype Attributes = Attributes(id: int, adjacentNodes: NodeList, isDragged: bool,
                                   name: string, location: string)

  class Node {
    var id: int
    var adjacentNodes: NodeList
    var dispX: real
    var dispY: real
    var posX: real
    var posY: real
    var isDragged: bool
    var name: string
    var location: string

    function Attrs(): Attributes
      reads this
    {
      Attributes(id, adjacentNodes, isDragged, name, location)
    }

    /** A node nobody has moved yet: at the origin, with zero displacement,
        not dragged (the Java defaults of fields without initialiser). */
    ghost predicate AtRest()
      reads this
    {
      posX == 0.0 && posY == 0.0 && dispX == 0.0 && dispY == 0.0 && !isDragged
    }

    /** `Node(int id)`: a fresh, empty adjacency list. */
    constructor (id: int)
      ensures this.id == id && fresh(adjacentNodes) && adjacentNodes.items == []
      ensures name == "John" && location == "Porto"
      ensures AtRest()
    {
      this.id := id;
      adjacentNodes := new NodeList();
      name := "John";
      location := "Porto";
      dispX, dispY, posX, posY := 0.0, 0.0, 0.0, 0.0;
      isDragged := false;
    }

    /** `Node()`: as `Node(int id)` with the default id 0. */
    constructor Blank()
      ensures id == 0 && fresh(adjacentNodes) && adjacentNodes.items == []
      ensures name == "John" && location == "Porto"
      ensures AtRest()
    {
      id := 0;
      adjacentNodes := new NodeList();
      name := "John";
      location := "Porto";
      dispX, dispY, posX, posY := 0.0, 0.0, 0.0, 0.0;
      isDragged := false;
    }

    /** `Node(ArrayList<Node> adjacentNodes, int id)`: keeps the given list
        itself, not a copy, so later changes to that list are seen here. */
    constructor WithAdjacency(adjacentNodes: NodeList, id: int)
      ensures this.adjacentNodes == adjacentNodes && this.id == id
      ensures name == "John" && location == "Porto"
      ensures AtRest()
    {
      this.adjacentNodes := adjacentNodes;
      this.id := id;
      name := "John";
      location := "Porto";
      dispX, dispY, posX, posY := 0.0, 0.0, 0.0, 0.0;
      isDragged := false;
    }

    /** `getAdjacentNodes`: the list object itself. */
    function GetAdjacentNodes(): NodeList
      reads this
    {
      adjacentNodes
    }

    /** `setAdjacentNodes`: replaces the reference; the list is not copied. */
    method SetAdjacentNodes(adjacentNodes: NodeList)
      modifies this`adjacentNodes
      ensures GetAdjacentNodes() == adjacentNodes
    {
      this.adjacentNodes := adjacentNodes;
    }

    function GetId(): int
      reads this
    {
      id
    }

    /** `setId`: the id may be overwritten at any time. */
    method SetId(id: int)
      modifies this`id
      ensures GetId() == id
    {
      this.id := id;
    }

    function IsDragged(): bool
      reads this
    {
      isDragged
    }

    method SetDragged(isDragged: bool)
      modifies this`isDragged
      ensures IsDragged() == isDragged
    {
      this.isDragged := isDragged;
    }

    function GetName(): string
      reads this
    {
      name
    }

    method SetName(name: string)
      modifies this`name
      ensures GetName() == name
    {
      this.name := name;
    }

    function GetLocation(): string
      reads this
    {
      location
    }

    method SetLocation(location: string)
      modifies this`location
      ensures GetLocation() == location
    {
      this.location := location;
    }

    function GetDispX(): real
      reads this
    {
      dispX
    }

    method SetDispX(dispX: real)
      modifies this`dispX
      ensures GetDispX() == dispX
    {
      this.dispX := dispX;
    }

    function GetDispY(): real
      reads this
    {
      dispY
    }

    method SetDispY(dispY: real)
      modifies this`dispY
      ensures GetDispY() == dispY
    {
      this.dispY := dispY;
    }

    function GetPosX(): real
      reads this
    {
      posX
    }

    method SetPosX(posX: real)
      modifies this`posX
      ensures GetPosX() == posX
    {
      this.posX := posX;
    }

    function GetPosY(): real
      reads this
    {
      posY
    }

    method SetPosY(posY: real)
      modifies this`posY
      ensures GetPosY() == posY
    {
      this.posY := posY;
    }
  }
}
