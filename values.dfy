/** The data model of the decision-tree learner: attribute values, records,
    training sets, the learned tree, and the failures (Go panics) the learner
    can run into. */
module Values {

  datatype Option<+T> = None | Some(value: T)

  /** The run-time failures of the learner. Go reports each of them as a panic. */
  datatype Error =
    | LabelNotString        // `item[attr].(string)` on a label that is missing or not a string
    | NumericTypeMismatch   // `b.(int)` / `b.(float64)` when an int meets a float64 in `predicateGte`
    | NilPointer            // `predict` dereferencing a nil `*TreeItem` or a nil `*Predicate`

  datatype Result<+T> = Ok(value: T) | Err(error: Error) {
    predicate IsFailure() { Err? }

    function PropagateFailure<U>(): Result<U>
      requires Err?
    {
      Err(error)
    }

    function Extract(): T
      requires Ok?
    {
      value
    }
  }

  /** A value held by a record: Go's `interface{}` restricted to the three
      dynamic types the learner distinguishes. A float64 is modelled as a real. */
  datatype Value = Str(s: string) | Int(i: int) | Float(f: real)

  /** A `TrainingItem`: attribute name to value. */
  type Record = map<string, Value>

  /** A `TrainingSet`: records in a fixed order. */
  type TrainingSet = seq<Record>

  /** Go's `item[attr]`: the value, or nil when the attribute is missing. */
  function Get(item: Record, attr: string): Option<Value>
  {
    if attr in item then Some(item[attr]) else None
  }

  /** The two predicates a node can hold; `PredicateName` is "==" or ">=". */
  datatype PredicateKind = Eq | Gte

  /** A `TreeItem`. A leaf carries only its category; an internal node carries
      the split rule, the number of training records that went each way, and
      its two children. */
  datatype Tree =
    | Leaf(category: string)
    | Node(attribute: string, kind: PredicateKind, pivot: Value,
           matchedCount: nat, noMatchedCount: nat, matchChild: Tree, noMatchChild: Tree)

  /** The labels at the leaves of a tree. */
  function LeafLabels(t: Tree): set<string>
  {
    match t
    case Leaf(c) => {c}
    case Node(_, _, _, _, _, m, n) => LeafLabels(m) + LeafLabels(n)
  }
}
