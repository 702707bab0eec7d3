/** Validation of a corpus (admission/schema.go): the checks that the policies rely on. */
module AdmissionSchema {
  import opened AdmissionModel

  method ValidateIds(c: Corpus, ids: seq<int>) returns (ok: bool)
    ensures ok <==> ValidObjects(c, ids)
  {
    var last, k := -1, 0;
    while k < |ids|
      invariant 0 <= k <= |ids| && -1 <= last < |c.objects| && last == (if k == 0 then -1 else ids[k - 1])
      invariant ValidObjects(c, ids[..k])
    {
      if ids[k] <= last || ids[k] >= |c.objects| {
        return false;
      }
      last := ids[k];
      k := k + 1;
    }
    assert ids[..k] == ids;
    return true;
  }

  method ValidateStage(c: Corpus, s: Stage) returns (ok: bool)
    ensures ok <==> ValidStage(c, s)
  {
    if |s.candidates| < 1 || |s.candidates| > MAX_CANDIDATES {
      return false;
    }
    var names: set<string>, cdc := {}, false;
    var k := 0;
    while k < |s.candidates|
      invariant 0 <= k <= |s.candidates|
      invariant forall j :: 0 <= j < k ==> ValidObjects(c, s.candidates[j].objects)
      invariant forall n :: n in names <==> exists j :: 0 <= j < k && s.candidates[j].name == n
      invariant forall i, j :: 0 <= i < j < k ==> s.candidates[i].name != s.candidates[j].name
      invariant cdc <==> exists j :: 0 <= j < k && s.candidates[j].name == "cdc"
    {
      var p := s.candidates[k];
      if p.name in names {
        return false;
      }
      names := names + {p.name};
      cdc := cdc || p.name == "cdc";
      var ok := ValidateIds(c, p.objects);
      if !ok {
        return false;
      }
      k := k + 1;
    }
    return cdc;
  }

  /** Accepts exactly the cases on which the policies' guarantees hold. */
  method ValidateCase(c: Corpus, f: Case) returns (ok: bool)
    ensures ok <==> ValidCase(c, f)
  {
    if |c.objects| > MAX_OBJECTS || c.overhead < 0 || c.overhead > MAX_OVERHEAD {
      return false;
    }
    var i := 0;
    while i < |c.objects|
      invariant 0 <= i <= |c.objects|
      invariant forall k :: 0 <= k < i ==> 0 <= c.objects[k].packed <= c.objects[k].raw <= MAX_RAW
    {
      var o := c.objects[i];
      if o.raw < 0 || o.raw > MAX_RAW || o.packed < 0 || o.packed > o.raw {
        return false;
      }
      i := i + 1;
    }
    if |f| < 1 || |f| > MAX_STAGES {
      return false;
    }
    i := 0;
    while i < |f|
      invariant 0 <= i <= |f|
      invariant forall k :: 0 <= k < i ==> ValidStage(c, f[k])
    {
      var ok := ValidateStage(c, f[i]);
      if !ok {
        return false;
      }
      i := i + 1;
    }
    return true;
  }
}
