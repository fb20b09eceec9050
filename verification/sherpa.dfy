/**
  * src/binder/binder_sherpa.cpp: the desired types of expression nodes, by node identity.
  */
module Sherpa {
  import opened Options
  import opened SqlTypes
  import opened BindSpec

  type Notes = map<object, TypeId>

  ghost function NoteOf(notes: Notes, node: object): Option<TypeId> {
    if node in notes then Some(notes[node]) else None
  }

  /** The two notes agree on every node outside nodes. */
  ghost predicate SameOutside(notes: Notes, notes': Notes, nodes: set<object>) {
    forall o :: o in notes.Keys + notes'.Keys && o !in nodes ==> NoteOf(notes, o) == NoteOf(notes', o)
  }

  class BinderSherpa {
    var desired: Notes

    constructor ()
      ensures desired == map[]
    {
      desired := map[];
    }

    method SetDesiredType(node: object, t: TypeId)
      modifies this
      ensures desired == old(desired)[node := t]
    {
      desired := desired[node := t];
    }

    /** The recorded constraint, or the node's own return type. */
    function GetDesiredType(node: object, returnType: TypeId): TypeId
      reads this
    {
      if node in desired then desired[node] else returnType
    }

    /** A recorded constraint that the node does not satisfy is an error. */
    function CheckDesiredType(node: object, returnType: TypeId): Option<Error>
      reads this
    {
      if node in desired && desired[node] != returnType then Some(SyntaxError) else None
    }

    /** The types recorded for two nodes of return types tl and tr, or their own if none is recorded. */
    method GetTypePair(left: object, right: object, tl: TypeId, tr: TypeId) returns (leftType: TypeId, rightType: TypeId)
      ensures (leftType, rightType) == PairBasis(NoteOf(desired, left), NoteOf(desired, right), tl, tr)
    {
      var constrained := false;
      leftType, rightType := INVALID, INVALID;
      if left in desired {
        leftType, constrained := desired[left], true;
      }
      if right in desired {
        rightType, constrained := desired[right], true;
      }
      if !constrained {
        leftType, rightType := tl, tr;
      }
    }

    method SetDesiredTypePair(left: object, right: object, tl: TypeId, tr: TypeId)
      requires left != right
      modifies this
      ensures (NoteOf(desired, left), NoteOf(desired, right))
           == PairTypes(NoteOf(old(desired), left), NoteOf(old(desired), right), tl, tr)
      ensures SameOutside(old(desired), desired, {left, right})
    {
      var leftType, rightType := GetTypePair(left, right, tl, tr);
      if leftType != rightType {
        if rightType != INVALID && (leftType == INVALID || leftType == VARCHAR || leftType == INTEGER) {
          SetDesiredType(left, rightType);
        }
        if leftType != INVALID && (rightType == INVALID || rightType == VARCHAR || rightType == INTEGER) {
          SetDesiredType(right, leftType);
        }
      }
    }
  }
}
