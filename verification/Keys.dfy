/** Lists of names as the scripts summarize them: [...new Set(x)] and [...new Set(x)].sort(). */
module Keys {
  import opened Text

  function AsSet(names: seq<string>): set<string> {
    set n | n in names
  }

  /** [...new Set(names)]: first occurrences, in order. */
  function Unique(names: seq<string>): (r: seq<string>)
    ensures Distinct(r) && AsSet(r) == AsSet(names)
  {
    if names == [] then []
    else
      var init, last := names[..|names| - 1], names[|names| - 1];
      AddedLast(init, last);
      AddedLast(Unique(init), last);
      assert names == init + [last];
      assert last in Unique(init) <==> last in AsSet(Unique(init));
      if last in Unique(init) then Unique(init) else Unique(init) + [last]
  }

  lemma {:induction false} AddedLast(names: seq<string>, last: string)
    ensures AsSet(names + [last]) == AsSet(names) + {last}
  {
  }

  predicate Ascending(names: seq<string>) {
    forall i, j | 0 <= i < j < |names| :: Less(names[i], names[j])
  }

  function Insert(names: seq<string>, name: string): (r: seq<string>)
    requires Ascending(names)
    ensures AsSet(r) == AsSet(names) + {name}
    ensures Ascending(r)
    decreases |names|
  {
    if names == [] then [name]
    else if name == names[0] then names
    else if Less(name, names[0]) then
      InsertedFirst(names, name);
      [name] + names
    else
      InsertedLater(names, name);
      var rest := Insert(names[1..], name);
      assert names == [names[0]] + names[1..];
      assert forall n | n in rest :: n in AsSet(rest);
      assert forall n | n in rest :: Less(names[0], n);
      [names[0]] + rest
  }

  lemma {:induction false} InsertedFirst(names: seq<string>, name: string)
    requires Ascending(names) && names != [] && Less(name, names[0])
    ensures forall n | n in names :: Less(name, n)
  {
    forall n | n in names
      ensures Less(name, n)
    {
      if n != names[0] {
        var i :| 0 <= i < |names| && names[i] == n;
        LessTransitive(name, names[0], n);
      }
    }
  }

  lemma {:induction false} InsertedLater(names: seq<string>, name: string)
    requires Ascending(names) && names != [] && name != names[0] && !Less(name, names[0])
    ensures forall n | n in AsSet(names[1..]) + {name} :: Less(names[0], n)
  {
    LessTotal(name, names[0]);
    forall n | n in names[1..]
      ensures Less(names[0], n)
    {
      var i :| 0 <= i < |names[1..]| && names[1..][i] == n;
      assert names[i + 1] == n;
    }
  }

  /** [...new Set(names)].sort() */
  function SortedUnique(names: seq<string>): (r: seq<string>)
    ensures Ascending(r) && AsSet(r) == AsSet(names)
  {
    if names == [] then []
    else
      assert names == [names[0]] + names[1..];
      Insert(SortedUnique(names[1..]), names[0])
  }

  /** A sorted list without repetitions is determined by its elements. */
  lemma {:induction false} AscendingUnique(a: seq<string>, b: seq<string>)
    requires Ascending(a) && Ascending(b) && AsSet(a) == AsSet(b)
    ensures a == b
  {
    if a == [] {
      NotEmpty(b);
    } else {
      assert a[0] in AsSet(a) && a[0] in AsSet(b) && b != [];
      assert b[0] in AsSet(b) && b[0] in AsSet(a);
      FirstIsLeast(a, b[0]);
      FirstIsLeast(b, a[0]);
      LessTotal(a[0], b[0]);
      TailSet(a);
      TailSet(b);
      AscendingUnique(a[1..], b[1..]);
      assert a == [a[0]] + a[1..] && b == [b[0]] + b[1..];
    }
  }

  lemma {:induction false} NotEmpty(names: seq<string>)
    ensures names == [] <==> AsSet(names) == {}
  {
    assert names != [] ==> names[0] in AsSet(names);
  }

  lemma {:induction false} FirstIsLeast(names: seq<string>, name: string)
    requires Ascending(names) && name in AsSet(names)
    ensures names[0] == name || Less(names[0], name)
  {
    var i :| 0 <= i < |names| && names[i] == name;
  }

  lemma {:induction false} TailSet(names: seq<string>)
    requires Ascending(names) && names != []
    ensures AsSet(names[1..]) == AsSet(names) - {names[0]}
    ensures Ascending(names[1..])
  {
    assert names == [names[0]] + names[1..];
    forall n | n in names[1..]
      ensures n != names[0]
    {
      var i :| 0 <= i < |names[1..]| && names[1..][i] == n;
      assert Less(names[0], names[i + 1]);
      LessTotal(n, names[0]);
    }
  }
}
