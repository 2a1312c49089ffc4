/** Redaction of personal data inside JSON documents. */
module Scrub {
  import opened Common
  import opened Json

  const REDACTED := "<redacted>"

  /** Contact data, names and addresses. */
  const PERSON_KEYS: set<string> := {
    "phone", "phone_number", "mobile", "email", "email_address",
    "name", "first_name", "last_name", "full_name", "display_name", "receiver_name", "receiver_phone",
    "address", "street", "building", "building_name", "flat_no", "floor", "landmark", "full_address"
  }

  /** Coordinates, push tokens, identity documents, bank and network identifiers. */
  const IDENTIFIER_KEYS: set<string> := {
    "lat", "lng", "latitude", "longitude", "location",
    "fcm_token", "device_token", "push_token",
    "dob", "date_of_birth", "aadhaar", "aadhaar_number", "pan", "pan_number", "kyc_id", "kyc_number",
    "account_number", "bank_account", "upi_id", "vpa", "ip_address"
  }

  /** The denied keys, in lower case. */
  const SCRUB_KEYS: set<string> := PERSON_KEYS + IDENTIFIER_KEYS

  predicate Denied(key: string, deny: set<string>) { Lower(key) in deny }

  /** Every key is listed in lower case. */
  ghost predicate Listing(deny: set<string>) { forall k :: k in deny ==> Lower(k) == k }

  /** Of a list in lower case, exactly the listed keys are denied, in whatever case they are written. */
  lemma DeniedIff(key: string, deny: set<string>)
    requires Listing(deny)
    ensures Denied(key, deny) <==> exists k :: k in deny && EqualFold(key, k)
  {
    forall k | k in deny ensures Lower(key) == k <==> EqualFold(key, k) {
      LowerIff(key, k);
    }
  }

  /** The document with the value of every denied key replaced; below a replaced value nothing remains. */
  function Scrubbed(j: Json, deny: set<string>): Json {
    match j
    case Obj(m) => Obj(map k | k in m :: if Denied(k, deny) then Str(REDACTED) else Scrubbed(m[k], deny))
    case Arr(xs) => Arr(seq(|xs|, i requires 0 <= i < |xs| => Scrubbed(xs[i], deny)))
    case _ => j
  }

  lemma {:induction false} ScrubIdempotent(j: Json, deny: set<string>)
    ensures Scrubbed(Scrubbed(j, deny), deny) == Scrubbed(j, deny)
  {
    var s := Scrubbed(j, deny);
    match j
    case Obj(m) =>
      forall k | k in m ensures Scrubbed(Scrubbed(m[k], deny), deny) == Scrubbed(m[k], deny) {
        ScrubIdempotent(m[k], deny);
      }
      assert Scrubbed(s, deny).fields == s.fields;
    case Arr(xs) =>
      forall i | 0 <= i < |xs| ensures Scrubbed(Scrubbed(xs[i], deny), deny) == Scrubbed(xs[i], deny) {
        ScrubIdempotent(xs[i], deny);
      }
      assert Scrubbed(s, deny).elems == s.elems;
    case _ =>
  }

  // ---- What a scrub does at every place of the document ----

  predicate Hidden(p: Place, deny: set<string>) { p.Field? && Denied(p.key, deny) }

  /** What must stand at a path afterwards, said without running the scrub along it. */
  function Expected(j: Json, path: seq<Place>, deny: set<string>): Option<Json> {
    if exists h :: 0 <= h < |path| && Hidden(path[h], deny) then
      var h := FirstHidden(path, deny);
      if h == |path| - 1 && At(j, path).Some? then Some(Str(REDACTED)) else None
    else if At(j, path).Some? then Some(Scrubbed(At(j, path).value, deny))
    else None
  }

  function FirstHidden(path: seq<Place>, deny: set<string>): (h: nat)
    requires exists h :: 0 <= h < |path| && Hidden(path[h], deny)
    ensures h < |path| && Hidden(path[h], deny) && forall g :: 0 <= g < h ==> !Hidden(path[g], deny)
  {
    if Hidden(path[0], deny) then 0
    else
      assert exists h :: 0 <= h < |path[1..]| && Hidden(path[1..][h], deny) by {
        var h :| 0 <= h < |path| && Hidden(path[h], deny);
        assert path[1..][h - 1] == path[h];
      }
      1 + FirstHidden(path[1..], deny)
  }

  /**
   Place by place: a denied key outside other redacted values holds the sentinel, nothing is left below it,
   and every other place keeps its value, scrubbed in turn (so leaves, keys and array lengths are unchanged).
   */
  lemma {:induction false} ScrubAtPlace(j: Json, path: seq<Place>, deny: set<string>)
    ensures At(Scrubbed(j, deny), path) == Expected(j, path, deny)
    decreases |path|
  {
    if path != [] {
      var rest := path[1..];
      match path[0]
      case Field(k) =>
        if j.Obj? && k in j.fields {
          if Denied(k, deny) {
            assert Hidden(path[0], deny) && FirstHidden(path, deny) == 0;
            if rest != [] {
              assert At(Str(REDACTED), rest) == None;
            } else {
              assert At(j.fields[k], rest).Some?;
            }
          } else {
            ScrubAtPlace(j.fields[k], rest, deny);
            HiddenShift(path, deny);
          }
        } else {
          assert At(j, path) == None;
        }
      case Index(i) =>
        if j.Arr? && i < |j.elems| {
          ScrubAtPlace(j.elems[i], rest, deny);
          HiddenShift(path, deny);
        } else {
          assert At(j, path) == None;
        }
    }
  }

  lemma HiddenShift(path: seq<Place>, deny: set<string>)
    requires path != [] && !Hidden(path[0], deny)
    ensures (exists h :: 0 <= h < |path| && Hidden(path[h], deny)) <==> exists h :: 0 <= h < |path[1..]| && Hidden(path[1..][h], deny)
    ensures (exists h :: 0 <= h < |path| && Hidden(path[h], deny)) ==> FirstHidden(path, deny) == 1 + FirstHidden(path[1..], deny)
  {
    if h :| 0 <= h < |path| && Hidden(path[h], deny) {
      assert path[1..][h - 1] == path[h];
    }
    if h :| 0 <= h < |path[1..]| && Hidden(path[1..][h], deny) {
      assert path[h + 1] == path[1..][h];
    }
  }

  /**
   So a key that equals a listed one up to case holds the sentinel after the scrub, wherever it stands outside other
   redacted values, and a key that equals none holds what is left of its own value.
   */
  lemma ListedIsRedacted(j: Json, path: seq<Place>, key: string, deny: set<string>)
    requires Listing(deny) && At(j, path + [Field(key)]).Some?
    requires forall h, k :: 0 <= h < |path| && k in deny ==> !(path[h].Field? && EqualFold(path[h].key, k))
    ensures At(Scrubbed(j, deny), path + [Field(key)]) ==
      if exists k :: k in deny && EqualFold(key, k) then Some(Str(REDACTED))
      else Some(Scrubbed(At(j, path + [Field(key)]).value, deny))
  {
    var whole := path + [Field(key)];
    ScrubAtPlace(j, whole, deny);
    DeniedIff(key, deny);
    forall h | 0 <= h < |path| ensures !Hidden(whole[h], deny) {
      assert whole[h] == path[h];
      if path[h].Field? {
        DeniedIff(path[h].key, deny);
      }
    }
    assert Hidden(whole[|path|], deny) <==> Denied(key, deny);
  }

  predicate NoCapitals(k: string) { forall i :: 0 <= i < |k| ==> !('A' <= k[i] <= 'Z') }

  lemma PersonKeysAreLower()
    ensures forall k :: k in PERSON_KEYS ==> NoCapitals(k)
  {
  }

  lemma IdentifierKeysAreLower()
    ensures forall k :: k in IDENTIFIER_KEYS ==> NoCapitals(k)
  {
  }

  /** The built-in list is in lower case. */
  lemma KeysAreLower()
    ensures Listing(SCRUB_KEYS)
  {
    PersonKeysAreLower();
    IdentifierKeysAreLower();
    forall k | k in SCRUB_KEYS ensures Lower(k) == k {
      assert NoCapitals(k);
    }
  }
}
