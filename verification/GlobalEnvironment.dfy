/** The global environment model: all objects, and a spatial index over their bounding boxes that
  * is only brought up to date from time to time. */
module GlobalEnvironment {
  import opened Moments

  type ExternalId = string

  datatype Box = Box(minX: real, minY: real, maxX: real, maxY: real)

  /** A search polygon, reduced to whether it is valid and which boxes it intersects. */
  datatype Area = Area(valid: bool, intersects: Box -> bool)

  class EnvironmentModelObject {
    const id: ExternalId
    /** The envelope of the current outline. */
    var box: Box
    var visible: bool

    constructor (id: ExternalId, box: Box, visible: bool)
      ensures this.id == id && this.box == box && this.visible == visible
    {
      this.id, this.box, this.visible := id, box, visible;
    }

    method Update(box: Box, visible: bool)
      modifies this
      ensures this.box == box && this.visible == visible
    {
      this.box, this.visible := box, visible;
    }
  }

  /** An entry of the index: a box and the object it was taken from. */
  datatype IndexEntry = IndexEntry(box: Box, source: EnvironmentModelObject)

  datatype Selection = Objects(found: seq<EnvironmentModelObject>) | InvalidArea

  class GlobalEnvironmentModel {
    var objects: map<ExternalId, EnvironmentModelObject>
    var index: seq<IndexEntry>
    var tainted: bool

    /** The object is in the database now. */
    ghost predicate Current(o: EnvironmentModelObject)
      reads this
    {
      o.id in objects && objects[o.id] == o
    }

    /** Each object of the database has exactly one entry, with its current box; there are entries
      * of other objects exactly while the index is tainted. */
    ghost predicate Valid()
      reads this, objects.Values
    {
      && (forall id :: id in objects ==> objects[id].id == id)
      && (forall j, k :: 0 <= j < k < |index| ==> index[j].source != index[k].source)
      && (forall id :: id in objects ==> IndexEntry(objects[id].box, objects[id]) in index)
      && (tainted <==> exists k :: 0 <= k < |index| && !Current(index[k].source))
    }

    constructor ()
      ensures Valid() && objects == map[] && !tainted
    {
      objects, index, tainted := map[], [], false;
    }

    /** The sources of the entries; in a valid model all different. */
    ghost function Sources(): set<EnvironmentModelObject>
      reads this
    {
      set k | 0 <= k < |index| :: index[k].source
    }

    /** There are as many entries as objects exactly if the index is not tainted. */
    lemma CountsAgree()
      requires Valid()
      ensures |index| >= |objects|
      ensures |index| == |objects| <==> !tainted
    {
      DistinctSize(index);
      ValuesSize(objects);
      ValuesHaveEntries();
      SubsetSize(objects.Values, Sources());
    }

    lemma ValuesHaveEntries()
      requires Valid()
      ensures objects.Values <= Sources()
      ensures objects.Values == Sources() <==> !tainted
    {
      forall o | o in objects.Values ensures o in Sources() {
        var id :| id in objects && objects[id] == o;
        var k :| 0 <= k < |index| && index[k] == IndexEntry(objects[id].box, objects[id]);
        assert index[k].source == o;
      }
      forall o | o in Sources() ensures o in objects.Values <==> Current(o) {
      }
      if tainted {
        var k :| 0 <= k < |index| && !Current(index[k].source);
        assert index[k].source in Sources() - objects.Values;
      } else {
        forall o | o in Sources() ensures Current(o) {
          var k :| 0 <= k < |index| && index[k].source == o;
        }
      }
    }

    /** Adds an object unless its ID is taken. The run-time assertion at the end of the operation,
      * that there are as many entries as objects, fails exactly if an object has been removed
      * since the last refresh. */
    method AddObject(o: EnvironmentModelObject) returns (added: bool)
      requires Valid() && o !in Sources()
      modifies this
      ensures Valid() && tainted == old(tainted)
      ensures added <==> o.id !in old(objects)
      ensures objects == if added then old(objects)[o.id := o] else old(objects)
      ensures index == if added then old(index) + [IndexEntry(o.box, o)] else old(index)
      ensures |objects| == |index| <==> !old(tainted)
    {
      added := o.id !in objects;
      if added {
        Insert(o);
      }
      CountsAgree();
    }

    method Insert(o: EnvironmentModelObject)
      requires Valid() && o !in Sources() && o.id !in objects
      modifies this`objects, this`index
      ensures Valid() && objects == old(objects)[o.id := o]
      ensures index == old(index) + [IndexEntry(o.box, o)]
    {
      ghost var before := index;
      objects := objects[o.id := o];
      index := index + [IndexEntry(o.box, o)];
      assert index[|before|] == IndexEntry(o.box, o);
      forall id | id in objects && id != o.id ensures IndexEntry(objects[id].box, objects[id]) in index {
        assert IndexEntry(objects[id].box, objects[id]) in before;
      }
      forall k | 0 <= k < |before| ensures index[k] == before[k] && before[k].source != o {
        assert before[k].source in old(Sources());
      }
      if tainted {
        ghost var k :| 0 <= k < |before| && !old(Current(before[k].source));
        assert !Current(index[k].source);
      }
    }

    /** Removes an object from the database, not from the index. */
    method RemoveObject(id: ExternalId) returns (erased: bool)
      requires Valid()
      modifies this
      ensures Valid()
      ensures erased <==> id in old(objects)
      ensures objects == old(objects) - {id} && index == old(index)
      ensures tainted <==> old(tainted) || erased
    {
      erased := id in objects;
      if erased {
        var k :| 0 <= k < |index| && index[k] == IndexEntry(objects[id].box, objects[id]);
        objects := objects - {id};
        assert !Current(index[k].source);
        tainted := true;
      }
      assert objects == old(objects) - {id};
    }

    method RemoveObjects()
      modifies this
      ensures Valid() && objects == map[] && index == [] && !tainted
    {
      objects, index, tainted := map[], [], false;
    }

    /** Updates every object, then builds the index anew. */
    method Refresh(boxes: ExternalId -> Box, visible: ExternalId -> bool)
      requires Valid()
      modifies this`index, this`tainted, objects.Values
      ensures Valid() && !tainted
      ensures forall id :: id in objects ==>
                objects[id].box == boxes(id) && objects[id].visible == visible(id)
      ensures forall id :: id in objects ==> IndexEntry(boxes(id), objects[id]) in index
      ensures |index| == |objects|
    {
      UpdateObjects(boxes, visible);
      BuildObjectIndex();
      CountsAgree();
    }

    method UpdateObjects(boxes: ExternalId -> Box, visible: ExternalId -> bool)
      requires forall id :: id in objects ==> objects[id].id == id
      modifies objects.Values
      ensures forall id :: id in objects ==>
                objects[id].box == boxes(id) && objects[id].visible == visible(id)
    {
      var todo := objects.Keys;
      while todo != {}
        invariant todo <= objects.Keys
        invariant forall id :: id in objects && id !in todo ==>
          objects[id].box == boxes(id) && objects[id].visible == visible(id)
        decreases |todo|
      {
        var id :| id in todo;
        objects[id].Update(boxes(id), visible(id));
        todo := todo - {id};
      }
    }

    method BuildObjectIndex()
      requires forall id :: id in objects ==> objects[id].id == id
      modifies this`index, this`tainted
      ensures Valid() && !tainted
    {
      index := [];
      var todo := objects.Keys;
      while todo != {}
        invariant todo <= objects.Keys
        invariant forall k :: 0 <= k < |index| ==>
          && index[k].source.id in objects && index[k].source.id !in todo
          && index[k] == IndexEntry(objects[index[k].source.id].box, objects[index[k].source.id])
        invariant forall j, k :: 0 <= j < k < |index| ==> index[j].source != index[k].source
        invariant forall id :: id in objects && id !in todo ==>
          IndexEntry(objects[id].box, objects[id]) in index
        decreases |todo|
      {
        var id :| id in todo;
        index := index + [IndexEntry(objects[id].box, objects[id])];
        todo := todo - {id};
      }
      tainted := false;
    }

    /** Queries the index. Every object a linear scan finds is among the result, once; on an index
      * that is not tainted the result holds nothing else. */
    method PreselectObjects(ego: ExternalId, area: Area) returns (r: Selection)
      requires Valid()
      ensures r.InvalidArea? <==> !area.valid
      ensures r.Objects? ==>
                && (forall j, k :: 0 <= j < k < |r.found| ==> r.found[j] != r.found[k])
                && (forall id :: id in objects && id != ego && objects[id].visible && area.intersects(objects[id].box)
                      ==> objects[id] in r.found)
                && (!tainted ==> forall o :: o in r.found ==>
                      o.id in objects && objects[o.id] == o && o.id != ego && o.visible && area.intersects(o.box))
    {
      if !area.valid {
        return InvalidArea;
      }
      var found: seq<EnvironmentModelObject> := [];
      ghost var from: seq<nat> := [];
      for n := 0 to |index|
        invariant |from| == |found|
        invariant forall i :: 0 <= i < |from| ==>
          from[i] < n && Hit(index[from[i]], ego, area) && found[i] == index[from[i]].source
        invariant forall i, j :: 0 <= i < j < |from| ==> from[i] < from[j]
        invariant forall k :: 0 <= k < n && Hit(index[k], ego, area) ==> index[k].source in found
      {
        var entry := index[n];
        if area.intersects(entry.box) && entry.source.id != ego && entry.source.visible {
          found := found + [entry.source];
          from := from + [n];
        }
      }
      HitsAreWanted(ego, area);
      return Objects(found);
    }

    ghost predicate Hit(e: IndexEntry, ego: ExternalId, area: Area)
      reads e.source
    {
      area.intersects(e.box) && e.source.id != ego && e.source.visible
    }

    lemma HitsAreWanted(ego: ExternalId, area: Area)
      requires Valid()
      ensures forall id :: id in objects && id != ego && objects[id].visible && area.intersects(objects[id].box) ==>
                exists k :: 0 <= k < |index| && Hit(index[k], ego, area) && index[k].source == objects[id]
      ensures !tainted ==>
                forall k :: 0 <= k < |index| && Hit(index[k], ego, area) ==>
                  Current(index[k].source) && area.intersects(index[k].source.box)
    {
    }
  }

  lemma DistinctSize(index: seq<IndexEntry>)
    requires forall j, k :: 0 <= j < k < |index| ==> index[j].source != index[k].source
    ensures |set k | 0 <= k < |index| :: index[k].source| == |index|
  {
    if index != [] {
      var front := index[..|index| - 1];
      DistinctSize(front);
      assert (set k | 0 <= k < |index| :: index[k].source)
          == (set k | 0 <= k < |front| :: front[k].source) + {index[|index| - 1].source};
    }
  }

  lemma ValuesSize(objects: map<ExternalId, EnvironmentModelObject>)
    requires forall id :: id in objects ==> objects[id].id == id
    ensures |objects.Values| == |objects|
    decreases objects.Keys
  {
    if objects != map[] {
      var id :| id in objects;
      var rest := objects - {id};
      ValuesSize(rest);
      forall o ensures o in objects.Values <==> o in rest.Values || o == objects[id] {
        if i :| i in objects && objects[i] == o {
          assert i != id ==> i in rest && rest[i] == o;
        }
      }
      assert objects[id] !in rest.Values;
      assert objects.Values == rest.Values + {objects[id]};
      assert |rest| == |objects| - 1;
    }
  }
}
