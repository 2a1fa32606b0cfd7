/** The objects of the evaluator as they are in memory: integers are objects that can change. */
module HeapObjects {
  import opened Evaluation

  class BigInt {
    var value: int

    constructor (value: int)
      ensures this.value == value
    {
      this.value := value;
    }
  }

  datatype HeapObject =
    | IntegerObject(n: BigInt)
    | BooleanObject(b: bool)
    | StringObject(s: string)
    | ArrayObject(elements: seq<HeapObject>)
    | ErrorObject(kind: ErrorKind)
    | BuiltinObject(f: Function)

  /** The integers that an object is made of. */
  ghost function Cells(o: HeapObject): set<BigInt>
    decreases o, 1
  {
    match o
    case IntegerObject(n) => {n}
    case ArrayObject(elements) => AllCells(elements)
    case _ => {}
  }

  ghost function AllCells(os: seq<HeapObject>): set<BigInt>
    decreases os, 0
  {
    if os == [] then {} else Cells(os[0]) + AllCells(os[1..])
  }

  /** The value that an object has at the moment. */
  ghost function View(o: HeapObject): Object
    reads Cells(o)
    decreases o, 1
  {
    match o
    case IntegerObject(n) => Integer(n.value)
    case BooleanObject(b) => Boolean(b)
    case StringObject(s) => String(s)
    case ArrayObject(elements) => Array(ViewAll(elements))
    case ErrorObject(kind) => Error(kind)
    case BuiltinObject(f) => Builtin(f)
  }

  ghost function ViewAll(os: seq<HeapObject>): (r: seq<Object>)
    reads AllCells(os)
    ensures |r| == |os|
    decreases os, 0
  {
    if os == [] then [] else [View(os[0])] + ViewAll(os[1..])
  }

  ghost function ViewOutcome(r: Outcome<HeapObject>): Outcome<Object>
    reads if r.Value? then Cells(r.value) else {}
  {
    match r
    case Value(o) => Value(View(o))
    case Abort(why) => Abort(why)
  }

  lemma {:induction false} ViewAllAt(os: seq<HeapObject>, i: nat)
    requires i < |os|
    ensures ViewAll(os)[i] == View(os[i])
    ensures Cells(os[i]) <= AllCells(os)
  {
    hide View, Cells;
    if i > 0 {
      ViewAllAt(os[1..], i - 1);
    }
  }

  lemma ViewAllEach(os: seq<HeapObject>)
    ensures forall i | 0 <= i < |os| :: ViewAll(os)[i] == View(os[i])
  {
    forall i | 0 <= i < |os|
      ensures ViewAll(os)[i] == View(os[i])
    {
      ViewAllAt(os, i);
    }
  }

  lemma {:induction false} ViewAllPush(os: seq<HeapObject>, o: HeapObject)
    ensures ViewAll(os + [o]) == ViewAll(os) + [View(o)]
    ensures AllCells(os + [o]) == AllCells(os) + Cells(o)
  {
    hide View, Cells;
    if os == [] {
      assert os + [o] == [o] && [o][1..] == [];
    } else {
      assert (os + [o])[1..] == os[1..] + [o];
      ViewAllPush(os[1..], o);
    }
  }

  /** Nothing dangles. */
  lemma {:induction false} CellsExist(o: HeapObject)
    ensures forall c | c in Cells(o) :: allocated(c)
    decreases o, 1
  {
    if o.ArrayObject? {
      AllCellsExist(o.elements);
    }
  }

  lemma {:induction false} AllCellsExist(os: seq<HeapObject>)
    ensures forall c | c in AllCells(os) :: allocated(c)
    decreases os, 0
  {
    if os != [] {
      CellsExist(os[0]);
      AllCellsExist(os[1..]);
    }
  }

  datatype HeapEnvironment = NoStore | Store(store: map<string, HeapObject>)

  ghost function EnvironmentCells(env: HeapEnvironment): set<BigInt> {
    if env.NoStore? then {} else set name, c | name in env.store && c in Cells(env.store[name]) :: c
  }

  ghost function ViewEnvironment(env: HeapEnvironment): Environment
    reads EnvironmentCells(env)
  {
    if env.NoStore? then NilEnvironment
    else FromStore(map name | name in env.store :: View(env.store[name]))
  }

  lemma EnvironmentCellsExist(env: HeapEnvironment)
    ensures forall c | c in EnvironmentCells(env) :: allocated(c)
  {
    if env.Store? {
      forall name | name in env.store
        ensures forall c | c in Cells(env.store[name]) :: allocated(c)
      {
        CellsExist(env.store[name]);
      }
    }
  }

  predicate NoFunctions(env: HeapEnvironment) {
    env.NoStore? || forall name | name in env.store :: !env.store[name].BuiltinObject?
  }
}
