/**
 * Highlight markers in a text editor (de.sebthom.eclipse.commons.text.Markers):
 * the list of annotations this object placed, and the annotation model
 * they were placed in.
 *
 * The editor's annotation model is reduced to a map from annotation to
 * position; the background `Job` runs synchronously, as `job.run(...)` does.
 */
module TextMarkers {

  /** A text range: `org.eclipse.jface.text.Position`. */
  datatype Position = Position(offset: int, length: int)

  /** An annotation: an object with identity and a type. */
  class Annotation {
    const annotationType: string

    constructor (annotationType: string)
      ensures this.annotationType == annotationType
    {
      this.annotationType := annotationType;
    }
  }

  /** An annotation model: the annotations it holds and where they are. */
  class AnnotationModel {
    var annotations: map<Annotation, Position>

    constructor ()
      ensures annotations == map[]
    {
      annotations := map[];
    }

    method RemoveAnnotation(a: Annotation)
      modifies this
      ensures annotations == old(annotations) - {a}
    {
      annotations := annotations - {a};
    }

    method AddAnnotation(a: Annotation, p: Position)
      modifies this
      ensures annotations == old(annotations)[a := p]
    {
      annotations := annotations[a := p];
    }
  }

  /**
   * The index of the first marker, in list order, that the model places
   * exactly at `pos`; markers the model does not hold are skipped. -1 when
   * there is none.
   */
  function FirstMarkerAt(markers: seq<Annotation>, annotations: map<Annotation, Position>, pos: Position): (k: int)
    ensures -1 <= k < |markers|
    ensures k >= 0 ==> markers[k] in annotations && annotations[markers[k]] == pos
    ensures forall j :: 0 <= j < |markers| && (k == -1 || j < k) ==>
      markers[j] !in annotations || annotations[markers[j]] != pos
  {
    if markers == [] then -1
    else if markers[0] in annotations && annotations[markers[0]] == pos then 0
    else
      var k := FirstMarkerAt(markers[1..], annotations, pos);
      if k == -1 then -1 else k + 1
  }

  /** The annotations of a marker list. */
  function MarkerSet(markers: seq<Annotation>): set<Annotation>
  {
    set a | a in markers
  }

  /** The annotations of `markers` placed at the matching `positions`. */
  function Placement(markers: seq<Annotation>, positions: seq<Position>): (m: map<Annotation, Position>)
    requires |markers| == |positions|
    ensures m.Keys == MarkerSet(markers)
  {
    if markers == [] then map[]
    else Placement(markers[..|markers| - 1], positions[..|positions| - 1])[markers[|markers| - 1] := positions[|positions| - 1]]
  }

  /** Each of a list of distinct markers sits at its own position. */
  lemma {:induction false} PlacementAt(markers: seq<Annotation>, positions: seq<Position>, i: nat)
    requires |markers| == |positions| && i < |markers|
    requires forall x, y :: 0 <= x < y < |markers| ==> markers[x] != markers[y]
    ensures Placement(markers, positions)[markers[i]] == positions[i]
  {
    var n := |markers| - 1;
    if i < n {
      PlacementAt(markers[..n], positions[..n], i);
    }
  }

  class Markers {
    const markerId: string
    var activeMarkers: seq<Annotation>
    var activeMarkersAnnoModel: AnnotationModel?

    ghost predicate Valid()
      reads this
    {
      activeMarkersAnnoModel == null ==> activeMarkers == []
    }

    /** The annotation model this object may change: the active one, if any. */
    function ModelFrame(): set<object>
      reads this
    {
      if activeMarkersAnnoModel == null then {} else {activeMarkersAnnoModel}
    }

    constructor (markerId: string)
      ensures Valid()
      ensures this.markerId == markerId && activeMarkers == [] && activeMarkersAnnoModel == null
    {
      this.markerId := markerId;
      activeMarkers := [];
      activeMarkersAnnoModel := null;
    }

    /**
     * `removeMarkerAt(offset, length)`: removes the first active marker
     * placed exactly at that range, and says whether there was one. The
     * list of active markers is never changed.
     */
    method RemoveMarkerAt(offset: int, length: int) returns (removed: bool)
      requires Valid()
      modifies ModelFrame()
      ensures activeMarkersAnnoModel == null ==> !removed
      ensures activeMarkersAnnoModel != null ==>
        var k := FirstMarkerAt(activeMarkers, old(activeMarkersAnnoModel.annotations), Position(offset, length));
        && removed == (k >= 0)
        && activeMarkersAnnoModel.annotations ==
             if k >= 0 then old(activeMarkersAnnoModel.annotations) - {activeMarkers[k]}
             else old(activeMarkersAnnoModel.annotations)
    {
      var markers := activeMarkers;
      var model := activeMarkersAnnoModel;
      if model == null || |markers| == 0 {
        return false;
      }
      var pos := Position(offset, length);
      for i := 0 to |markers|
        invariant model.annotations == old(model.annotations)
        invariant forall j :: 0 <= j < i ==> markers[j] !in model.annotations || model.annotations[markers[j]] != pos
      {
        if markers[i] !in model.annotations {
          continue;
        }
        if model.annotations[markers[i]] == pos {
          assert FirstMarkerAt(markers, model.annotations, pos) == i by {
            FirstMarkerAtIsFirst(markers, model.annotations, pos, i);
          }
          model.RemoveAnnotation(markers[i]);
          return true;
        }
      }
      FirstMarkerAtIsFirst(markers, model.annotations, pos, -1);
      return false;
    }

    /** `removeMarkerAt(ITextSelection)` and `removeMarkerAt(Position)`. */
    method RemoveMarkerAtPosition(pos: Position) returns (removed: bool)
      requires Valid()
      modifies ModelFrame()
      ensures activeMarkersAnnoModel == null ==> !removed
      ensures activeMarkersAnnoModel != null ==>
        var k := FirstMarkerAt(activeMarkers, old(activeMarkersAnnoModel.annotations), pos);
        && removed == (k >= 0)
        && activeMarkersAnnoModel.annotations ==
             if k >= 0 then old(activeMarkersAnnoModel.annotations) - {activeMarkers[k]}
             else old(activeMarkersAnnoModel.annotations)
    {
      removed := RemoveMarkerAt(pos.offset, pos.length);
    }

    /**
     * `removeMarkers()`: takes every active marker out of the active model
     * and leaves its other annotations alone.
     */
    method RemoveMarkers()
      requires Valid()
      modifies ModelFrame()
      ensures activeMarkersAnnoModel != null ==>
        activeMarkersAnnoModel.annotations == old(activeMarkersAnnoModel.annotations) - MarkerSet(activeMarkers)
    {
      var model := activeMarkersAnnoModel;
      if model != null && |activeMarkers| > 0 {
        for i := 0 to |activeMarkers|
          invariant model.annotations == old(model.annotations) - MarkerSet(activeMarkers[..i])
        {
          assert MarkerSet(activeMarkers[..i + 1]) == MarkerSet(activeMarkers[..i]) + {activeMarkers[i]};
          model.RemoveAnnotation(activeMarkers[i]);
        }
        assert activeMarkers[..|activeMarkers|] == activeMarkers;
      }
    }

    /**
     * `setMarkers(annoModel, matches, monitor)`: clears the old markers,
     * switches to `annoModel`, and, when there are matches, places one new
     * annotation per match and makes those the active markers.
     */
    method SetMarkers(annoModel: AnnotationModel, matches: seq<Position>)
      requires Valid()
      modifies this, ModelFrame(), annoModel
      ensures Valid()
      ensures activeMarkersAnnoModel == annoModel
      ensures old(activeMarkersAnnoModel) != null && old(activeMarkersAnnoModel) != annoModel ==>
        old(activeMarkersAnnoModel).annotations ==
          old(activeMarkersAnnoModel.annotations) - MarkerSet(old(activeMarkers))
      ensures matches == [] ==>
        && activeMarkers == old(activeMarkers)
        && annoModel.annotations ==
             if old(activeMarkersAnnoModel) == annoModel
             then old(annoModel.annotations) - MarkerSet(old(activeMarkers))
             else old(annoModel.annotations)
      ensures matches != [] ==>
        && |activeMarkers| == |matches|
        && (forall i :: 0 <= i < |activeMarkers| ==> fresh(activeMarkers[i]) && activeMarkers[i].annotationType == markerId)
        && (forall i, j :: 0 <= i < j < |activeMarkers| ==> activeMarkers[i] != activeMarkers[j])
        && annoModel.annotations ==
             (old(annoModel.annotations) - MarkerSet(old(activeMarkers))) + Placement(activeMarkers, matches)
    {
      if activeMarkersAnnoModel != null {
        RemoveMarkers();
      }
      activeMarkersAnnoModel := annoModel;

      if |matches| == 0 {
        return;
      }

      var newMarkers := NewAnnotations(markerId, |matches|);
      RemoveMarkers();
      AddAnnotations(annoModel, newMarkers, matches);
      activeMarkers := newMarkers;
    }
  }

  /** `FirstMarkerAt` finds the earliest match and nothing earlier. */
  lemma {:induction false} FirstMarkerAtIsFirst(markers: seq<Annotation>, annotations: map<Annotation, Position>, pos: Position, i: int)
    requires -1 <= i < |markers|
    requires i >= 0 ==> markers[i] in annotations && annotations[markers[i]] == pos
    requires forall j :: 0 <= j < |markers| && (i == -1 || j < i) ==>
      markers[j] !in annotations || annotations[markers[j]] != pos
    ensures FirstMarkerAt(markers, annotations, pos) == i
  {
    if markers != [] && i != 0 {
      FirstMarkerAtIsFirst(markers[1..], annotations, pos, if i == -1 then -1 else i - 1);
    }
  }

  /** One fresh annotation of type `markerId` per match. */
  method NewAnnotations(markerId: string, count: nat) returns (markers: seq<Annotation>)
    ensures |markers| == count
    ensures forall i :: 0 <= i < count ==> fresh(markers[i]) && markers[i].annotationType == markerId
    ensures forall x, y :: 0 <= x < y < count ==> markers[x] != markers[y]
  {
    markers := [];
    for i := 0 to count
      invariant |markers| == i
      invariant forall k :: 0 <= k < i ==> fresh(markers[k]) && markers[k].annotationType == markerId
      invariant forall x, y :: 0 <= x < y < i ==> markers[x] != markers[y]
    {
      var a := new Annotation(markerId);
      markers := markers + [a];
    }
  }

  /** `annoModel.addAnnotation(marker, position)` for each pair in turn. */
  method AddAnnotations(model: AnnotationModel, markers: seq<Annotation>, positions: seq<Position>)
    requires |markers| == |positions|
    modifies model
    ensures model.annotations == old(model.annotations) + Placement(markers, positions)
  {
    ghost var before := model.annotations;
    for i := 0 to |markers|
      invariant model.annotations == before + Placement(markers[..i], positions[..i])
    {
      PlacementStep(before, markers, positions, i);
      model.AddAnnotation(markers[i], positions[i]);
    }
    assert markers[..|markers|] == markers && positions[..|positions|] == positions;
  }

  /** Placing one more marker on top of a base map extends the placement by that marker. */
  lemma PlacementStep(base: map<Annotation, Position>, markers: seq<Annotation>, positions: seq<Position>, i: nat)
    requires |markers| == |positions| && i < |markers|
    ensures (base + Placement(markers[..i], positions[..i]))[markers[i] := positions[i]] ==
      base + Placement(markers[..i + 1], positions[..i + 1])
  {
    assert markers[..i + 1][..i] == markers[..i] && positions[..i + 1][..i] == positions[..i];
  }
}
