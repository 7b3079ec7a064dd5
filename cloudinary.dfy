/** The signed upload form of the earlier revision's Cloudinary client
    (`form_builder`): which parameters are signed, the order they are signed
    in, the string-to-sign and the form fields sent. SHA-1 (FIPS 180-4) and
    its lowercase hex rendering are one parameter; the clock is a parameter. */
module Cloudinary {
  import opened Wrappers
  import opened Text

  /** `UploadImageOptions`. */
  datatype UploadOptions = UploadOptions(folder: Option<string>, publicId: Option<string>, transformation: Option<string>)

  /** `CloudinaryEnv`. */
  datatype CloudEnv = CloudEnv(cloudName: string, apiKey: string, apiSecret: string)

  /** One `form.text(name, value)` part, in the order added. */
  datatype Field = Field(name: string, value: string)

  // ---------------------------------------------------------------------
  // The order of `String`: byte-wise lexicographic, which for UTF-8 text is
  // the lexicographic order of code points.
  // ---------------------------------------------------------------------

  predicate LexLe(a: string, b: string)
    decreases |a|
  {
    a == [] || (b != [] && (a[0] < b[0] || (a[0] == b[0] && LexLe(a[1..], b[1..]))))
  }

  lemma {:induction false} LexRefl(a: string)
    ensures LexLe(a, a)
    decreases |a|
  {
    if a != [] {
      LexRefl(a[1..]);
    }
  }

  lemma {:induction false} LexTotal(a: string, b: string)
    ensures LexLe(a, b) || LexLe(b, a)
    decreases |a|
  {
    if a != [] && b != [] && a[0] == b[0] {
      LexTotal(a[1..], b[1..]);
    }
  }

  lemma {:induction false} LexAntisym(a: string, b: string)
    requires LexLe(a, b) && LexLe(b, a)
    ensures a == b
    decreases |a|
  {
    if a != [] && b != [] {
      LexAntisym(a[1..], b[1..]);
      assert a == [a[0]] + a[1..] && b == [b[0]] + b[1..];
    }
  }

  lemma {:induction false} LexTrans(a: string, b: string, c: string)
    requires LexLe(a, b) && LexLe(b, c)
    ensures LexLe(a, c)
    decreases |a|
  {
    if a != [] && b != [] && c != [] && a[0] == b[0] && b[0] == c[0] {
      LexTrans(a[1..], b[1..], c[1..]);
    }
  }

  predicate Ascending(ks: seq<string>) {
    forall i, j :: 0 <= i < j < |ks| ==> LexLe(ks[i], ks[j])
  }

  // ---------------------------------------------------------------------
  // `sorted_keys.sort()`
  // ---------------------------------------------------------------------

  /** Inserts `x` before the first element it does not exceed. */
  function Insert(x: string, ks: seq<string>): seq<string> {
    if ks == [] then [x]
    else if LexLe(x, ks[0]) then [x] + ks
    else [ks[0]] + Insert(x, ks[1..])
  }

  /** Sorting the keys ascending. */
  function Sort(ks: seq<string>): seq<string> {
    if ks == [] then [] else Insert(ks[|ks| - 1], Sort(ks[..|ks| - 1]))
  }

  lemma AscendingCons(a: string, ks: seq<string>)
    requires Ascending(ks)
    requires forall y :: y in ks ==> LexLe(a, y)
    ensures Ascending([a] + ks)
  {
    forall i, j | 0 <= i < j < |[a] + ks| ensures LexLe(([a] + ks)[i], ([a] + ks)[j]) {
      assert ([a] + ks)[j] == ks[j - 1];
      if i > 0 {
        assert ([a] + ks)[i] == ks[i - 1];
      }
    }
  }

  lemma {:induction false} InsertSpec(x: string, ks: seq<string>)
    requires Ascending(ks)
    ensures Ascending(Insert(x, ks))
    ensures multiset(Insert(x, ks)) == multiset(ks) + multiset{x}
  {
    if ks == [] {
    } else if LexLe(x, ks[0]) {
      forall y | y in ks ensures LexLe(x, y) {
        var k :| 0 <= k < |ks| && ks[k] == y;
        if k > 0 {
          LexTrans(x, ks[0], y);
        }
      }
      AscendingCons(x, ks);
    } else {
      LexTotal(x, ks[0]);
      var tail := ks[1..];
      assert ks == [ks[0]] + tail;
      InsertSpec(x, tail);
      var rest := Insert(x, tail);
      forall y | y in rest ensures LexLe(ks[0], y) {
        assert y in multiset(rest);
        if y != x {
          assert y in multiset(tail);
          var k :| 0 <= k < |tail| && tail[k] == y;
          assert ks[k + 1] == y;
        }
      }
      AscendingCons(ks[0], rest);
    }
  }

  lemma {:induction false} SortSpec(ks: seq<string>)
    ensures Ascending(Sort(ks))
    ensures multiset(Sort(ks)) == multiset(ks)
  {
    if ks != [] {
      SortSpec(ks[..|ks| - 1]);
      InsertSpec(ks[|ks| - 1], Sort(ks[..|ks| - 1]));
      assert ks == ks[..|ks| - 1] + [ks[|ks| - 1]];
    }
  }

  /** The first key of an ascending sequence is its least. */
  lemma HeadLeast(a: seq<string>, y: string)
    requires Ascending(a) && y in a
    ensures LexLe(a[0], y)
  {
    var j :| 0 <= j < |a| && a[j] == y;
    if j == 0 {
      LexRefl(y);
    }
  }

  lemma MultisetCancel(x: string, p: multiset<string>, q: multiset<string>)
    requires multiset{x} + p == multiset{x} + q
    ensures p == q
  {
    forall y ensures p[y] == q[y] {
      assert (multiset{x} + p)[y] == (multiset{x} + q)[y];
    }
  }

  /** There is only one ascending arrangement of a collection of keys. */
  lemma {:induction false} AscendingUnique(a: seq<string>, b: seq<string>)
    requires Ascending(a) && Ascending(b) && multiset(a) == multiset(b)
    ensures a == b
  {
    if a != [] {
      assert a[0] in multiset(b);
      assert b != [];
      assert b[0] in multiset(a);
      HeadLeast(b, a[0]);
      HeadLeast(a, b[0]);
      LexAntisym(a[0], b[0]);
      var x, ta, tb := a[0], a[1..], b[1..];
      assert a == [x] + ta && b == [x] + tb;
      assert multiset(a) == multiset{x} + multiset(ta);
      assert multiset(b) == multiset{x} + multiset(tb);
      MultisetCancel(x, multiset(ta), multiset(tb));
      AscendingUnique(ta, tb);
    } else {
      assert |b| == |multiset(b)| == 0;
    }
  }

  /** Some enumeration of a set (the spec does not care which). */
  ghost function SetToSeq(ks: set<string>): (r: seq<string>)
    ensures multiset(r) == multiset(ks)
    decreases |ks|
  {
    if ks == {} then []
    else
      var x :| x in ks;
      assert multiset(ks) == multiset(ks - {x}) + multiset{x};
      [x] + SetToSeq(ks - {x})
  }

  /** The keys of a set in ascending order. */
  ghost function SortedKeys(ks: set<string>): seq<string> {
    Sort(SetToSeq(ks))
  }

  /** Whatever order the map hands out its keys in, sorting them gives the
      same sequence. */
  lemma OrderIndependent(e: seq<string>, ks: set<string>)
    requires multiset(e) == multiset(ks)
    ensures Sort(e) == SortedKeys(ks)
  {
    SortSpec(e);
    SortSpec(SetToSeq(ks));
    AscendingUnique(Sort(e), SortedKeys(ks));
  }

  // ---------------------------------------------------------------------
  // The specification of `form_builder`
  // ---------------------------------------------------------------------

  /** `params_to_sign`: the timestamp always; each option when present. */
  function SignedParams(timestamp: string, o: UploadOptions): map<string, string> {
    var p := map["timestamp" := timestamp];
    var p := if o.folder.Some? then p["folder" := o.folder.value] else p;
    var p := if o.publicId.Some? then p["public_id" := o.publicId.value] else p;
    if o.transformation.Some? then p["transformation" := o.transformation.value] else p
  }

  /** "key=value" for each of `ks` that has a value, in order. */
  function Parts(p: map<string, string>, ks: seq<string>): seq<string> {
    if ks == [] then []
    else
      var k := ks[|ks| - 1];
      Parts(p, ks[..|ks| - 1]) + (if k in p then [k + "=" + p[k]] else [])
  }

  /** The form field of each of `ks` that has a value, in order. */
  function Fields(p: map<string, string>, ks: seq<string>): seq<Field> {
    if ks == [] then []
    else
      var k := ks[|ks| - 1];
      Fields(p, ks[..|ks| - 1]) + (if k in p then [Field(k, p[k])] else [])
  }

  /** The pairs joined by "&", then the secret with no separator. */
  ghost function StringToSign(p: map<string, string>, secret: string): string {
    Join(Parts(p, SortedKeys(p.Keys)), "&") + secret
  }

  /** The complete form: the signed parameters in key order, then the
      signature, the API key and the resource type. */
  ghost function FormSpec(o: UploadOptions, env: CloudEnv, now: int, sha1: string -> string): seq<Field> {
    var p := SignedParams(IntToString(now), o);
    Fields(p, SortedKeys(p.Keys))
    + [Field("signature", sha1(StringToSign(p, env.apiSecret))), Field("api_key", env.apiKey), Field("resource_type", "image")]
  }

  // ---------------------------------------------------------------------
  // `form_builder`
  // ---------------------------------------------------------------------

  /** `params_to_sign.keys().collect()`: the keys in whatever order the map
      hands them out. */
  method CollectKeys(params: map<string, string>) returns (keys: seq<string>)
    ensures multiset(keys) == multiset(params.Keys)
  {
    keys := [];
    var rest := params.Keys;
    while rest != {}
      invariant rest <= params.Keys
      invariant multiset(keys) + multiset(rest) == multiset(params.Keys)
      decreases |rest|
    {
      var k :| k in rest;
      assert multiset(rest) == multiset(rest - {k}) + multiset{k};
      keys := keys + [k];
      rest := rest - {k};
    }
  }

  /** The `for key in sorted_keys` loop: one pair and one form field per key
      that has a value. */
  method SignKeys(params: map<string, string>, sorted: seq<string>, form0: seq<Field>) returns (parts: seq<string>, form: seq<Field>)
    ensures parts == Parts(params, sorted)
    ensures form == form0 + Fields(params, sorted)
  {
    parts := [];
    form := form0;
    var i := 0;
    while i < |sorted|
      invariant 0 <= i <= |sorted|
      invariant parts == Parts(params, sorted[..i])
      invariant form == form0 + Fields(params, sorted[..i])
    {
      var key := sorted[i];
      assert sorted[..i + 1][..i] == sorted[..i];
      if key in params {
        var value := params[key];
        parts := parts + [key + "=" + value];
        form := form + [Field(key, value)];
      }
      i := i + 1;
    }
    assert sorted[..|sorted|] == sorted;
  }

  /** `form_builder`. `now` is `Utc::now().timestamp()` in seconds and
      `sha1` the lowercase hex digest of the string's bytes. The source
      wraps the form in an `Ok` that is never an error. */
  method FormBuilder(option: UploadOptions, env: CloudEnv, now: int, sha1: string -> string) returns (form: seq<Field>)
    ensures form == FormSpec(option, env, now, sha1)
  {
    form := [];
    var timestamp := IntToString(now);
    var params := SignedParams(timestamp, option);
    var keys := CollectKeys(params);
    var sorted := Sort(keys);
    OrderIndependent(keys, params.Keys);
    var parts;
    parts, form := SignKeys(params, sorted, form);
    var signatureString := Join(parts, "&") + env.apiSecret;
    var signature := sha1(signatureString);
    form := form + [Field("signature", signature)];
    form := form + [Field("api_key", env.apiKey)];
    form := form + [Field("resource_type", "image")];
  }

  // ---------------------------------------------------------------------
  // Properties
  // ---------------------------------------------------------------------

  /** The timestamp is always signed, each option exactly when present, and
      the signature, the API key, the resource type and the file are never
      among the signed parameters. */
  lemma SignedKeys(timestamp: string, o: UploadOptions)
    ensures var p := SignedParams(timestamp, o);
      "timestamp" in p && p["timestamp"] == timestamp
      && ("folder" in p <==> o.folder.Some?) && (o.folder.Some? ==> p["folder"] == o.folder.value)
      && ("public_id" in p <==> o.publicId.Some?) && (o.publicId.Some? ==> p["public_id"] == o.publicId.value)
      && ("transformation" in p <==> o.transformation.Some?)
      && (o.transformation.Some? ==> p["transformation"] == o.transformation.value)
    ensures SignedParams(timestamp, o).Keys <= {"timestamp", "folder", "public_id", "transformation"}
    ensures var p := SignedParams(timestamp, o);
      "signature" !in p && "api_key" !in p && "resource_type" !in p && "file" !in p
  {
    var p := SignedParams(timestamp, o);
    assert "signature"[0] == 's' && "api_key"[0] == 'a' && "resource_type"[0] == 'r' && "file"[1] == 'i';
    assert "folder"[1] == 'o';
  }

  /** Each sorted key has a value, so there is one pair and one form field
      per signed parameter, with the same value, in ascending key order. */
  lemma {:induction false} PartsOfKeys(p: map<string, string>, ks: seq<string>)
    requires forall k :: k in ks ==> k in p
    ensures |Parts(p, ks)| == |ks| && |Fields(p, ks)| == |ks|
    ensures forall i :: 0 <= i < |ks| ==>
      Parts(p, ks)[i] == ks[i] + "=" + p[ks[i]] && Fields(p, ks)[i] == Field(ks[i], p[ks[i]])
  {
    if ks != [] {
      PartsOfKeys(p, ks[..|ks| - 1]);
    }
  }

  /** The form starts with exactly the signed parameters, ascending by name
      and each with its value, and ends with the signature over the
      string-to-sign, the API key and the resource type "image". */
  lemma FormShape(o: UploadOptions, env: CloudEnv, now: int, sha1: string -> string)
    ensures var p := SignedParams(IntToString(now), o);
      var keys := SortedKeys(p.Keys);
      var form := FormSpec(o, env, now, sha1);
      Ascending(keys) && multiset(keys) == multiset(p.Keys)
      && |keys| == |p.Keys| && |form| == |keys| + 3
      && (forall i :: 0 <= i < |keys| ==> keys[i] in p && form[i] == Field(keys[i], p[keys[i]]))
      && form[|keys|] == Field("signature", sha1(StringToSign(p, env.apiSecret)))
      && form[|keys| + 1] == Field("api_key", env.apiKey)
      && form[|keys| + 2] == Field("resource_type", "image")
  {
    var p := SignedParams(IntToString(now), o);
    var keys := SortedKeys(p.Keys);
    SortSpec(SetToSeq(p.Keys));
    assert |multiset(keys)| == |keys|;
    forall k | k in keys ensures k in p {
      assert k in multiset(keys);
    }
    PartsOfKeys(p, keys);
  }

  /** Without options only the timestamp is signed. */
  lemma TimestampOnly(now: int, secret: string)
    ensures StringToSign(SignedParams(IntToString(now), UploadOptions(None, None, None)), secret)
      == "timestamp=" + IntToString(now) + secret
  {
    var p := SignedParams(IntToString(now), UploadOptions(None, None, None));
    assert p == map["timestamp" := IntToString(now)];
    assert p.Keys == {"timestamp"};
    var keys := ["timestamp"];
    assert multiset(keys) == multiset(p.Keys);
    OrderIndependent(keys, p.Keys);
    assert Sort(keys) == Insert("timestamp", []) == keys;
    assert keys[..0] == [];
    assert "timestamp" in p && p["timestamp"] == IntToString(now);
    assert Parts(p, keys) == Parts(p, []) + ["timestamp" + "=" + IntToString(now)];
    assert Join(["timestamp" + "=" + IntToString(now)], "&") == "timestamp" + "=" + IntToString(now);
  }

  /** The four parameter names in ascending order. */
  lemma KnownNamesAscending()
    ensures Ascending(["folder", "public_id", "timestamp", "transformation"])
  {
    var ks := ["folder", "public_id", "timestamp", "transformation"];
    assert LexLe(ks[0], ks[1]) && LexLe(ks[1], ks[2]) && LexLe(ks[0], ks[2]);
    assert LexLe(ks[0], ks[3]) && LexLe(ks[1], ks[3]);
    assert LexLe(ks[2], ks[3]) by {
      assert ks[2][0] == ks[3][0] && ks[2][1] < ks[3][1];
    }
  }

  /** The four parameter names are distinct. */
  lemma NamesDistinct()
    ensures "folder" != "public_id" && "folder" != "timestamp" && "folder" != "transformation"
    ensures "public_id" != "timestamp" && "public_id" != "transformation"
    ensures "timestamp" != "transformation"
  {
    assert "folder"[0] == 'f' && "public_id"[0] == 'p' && "timestamp"[0] == 't';
    assert "timestamp"[1] == 'i' && "transformation"[1] == 'r';
  }

  /** With every option present all four names are signed, each with its
      value. */
  lemma AllOptionsParams(ts: string, folder: string, id: string, tr: string)
    ensures var p := SignedParams(ts, UploadOptions(Some(folder), Some(id), Some(tr)));
      p.Keys == {"folder", "public_id", "timestamp", "transformation"}
      && p["folder"] == folder && p["public_id"] == id && p["timestamp"] == ts && p["transformation"] == tr
  {
    NamesDistinct();
  }

  lemma AllOptionsSorted(ks: set<string>)
    requires ks == {"folder", "public_id", "timestamp", "transformation"}
    ensures SortedKeys(ks) == ["folder", "public_id", "timestamp", "transformation"]
  {
    var names := ["folder", "public_id", "timestamp", "transformation"];
    NamesDistinct();
    assert multiset(names) == multiset(ks);
    KnownNamesAscending();
    SortSpec(SetToSeq(ks));
    AscendingUnique(names, SortedKeys(ks));
  }

  lemma Join4(a: string, b: string, c: string, d: string)
    ensures Join([a, b, c, d], "&") == a + "&" + b + "&" + c + "&" + d
  {
    assert [a, b, c, d][1..] == [b, c, d];
    assert [b, c, d][1..] == [c, d];
    assert [c, d][1..] == [d];
    assert Join([c, d], "&") == c + "&" + d;
    assert Join([b, c, d], "&") == b + "&" + (c + "&" + d);
  }

  /** With every option present the string-to-sign is
      "folder=F&public_id=P&timestamp=T&transformation=X" followed by the
      secret. */
  lemma AllOptionsParts(ts: string, folder: string, id: string, tr: string)
    ensures var p := SignedParams(ts, UploadOptions(Some(folder), Some(id), Some(tr)));
      Parts(p, SortedKeys(p.Keys))
      == ["folder" + "=" + folder, "public_id" + "=" + id, "timestamp" + "=" + ts, "transformation" + "=" + tr]
  {
    var p := SignedParams(ts, UploadOptions(Some(folder), Some(id), Some(tr)));
    AllOptionsParams(ts, folder, id, tr);
    AllOptionsSorted(p.Keys);
    PartsOfKeys(p, ["folder", "public_id", "timestamp", "transformation"]);
  }

  lemma AllOptions(now: int, folder: string, id: string, tr: string, secret: string)
    ensures StringToSign(SignedParams(IntToString(now), UploadOptions(Some(folder), Some(id), Some(tr))), secret)
      == "folder" + "=" + folder + "&" + "public_id" + "=" + id + "&" + "timestamp" + "=" + IntToString(now)
         + "&" + "transformation" + "=" + tr + secret
  {
    var ts := IntToString(now);
    AllOptionsParts(ts, folder, id, tr);
    Join4("folder" + "=" + folder, "public_id" + "=" + id, "timestamp" + "=" + ts, "transformation" + "=" + tr);
  }
}
