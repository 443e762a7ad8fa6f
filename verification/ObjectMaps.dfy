/** Maps from keys to heap objects, beside a ghost map from keys to the objects' values. */
module ObjectMaps {
  /** One object and one value for every key; `repr` holds the objects. */
  ghost predicate Shape<K, O, V>(objects: map<K, O>, values: map<K, V>, repr: set<O>) {
    && objects.Keys == values.Keys
    && (forall k :: k in objects ==> objects[k] in repr)
    && (forall j, k :: j in objects && k in objects && j != k ==> objects[j] != objects[k])
  }

  lemma {:induction false} ShapeFacts<K, O, V>(objects: map<K, O>, values: map<K, V>, repr: set<O>)
    requires Shape(objects, values, repr)
    ensures objects.Keys == values.Keys && |objects| == |values| && forall k :: k in objects ==> objects[k] in repr
  {
    assert |objects| == |objects.Keys| && |values| == |values.Keys|;
  }

  lemma {:induction false} ShapeInsert<K, O, V>(objects: map<K, O>, values: map<K, V>, repr: set<O>, key: K, o: O, v: V)
    requires Shape(objects, values, repr) && key !in objects && o !in repr
    ensures Shape(objects[key := o], values[key := v], repr + {o})
  {
  }

  /** Only the object of `key` has to change for `key` to get a new value. */
  lemma {:induction false} ShapeUpdate<K, O, V>(objects: map<K, O>, values: map<K, V>, repr: set<O>, key: K, v: V)
    requires Shape(objects, values, repr) && key in objects
    ensures Shape(objects, values[key := v], repr)
    ensures objects[key] in repr && key in values && forall j :: j in objects && j != key ==> objects[j] != objects[key]
  {
  }
}
