/** How a tenant's tables are named, and how tenant ids are made. */
module TenantNames {
  import opened Wrappers
  import opened Text

  const TENANT_PREFIX := "tn:"

  /** A text put into the two-part name has to keep clear of the separator. */
  predicate ColonFree(s: string) { ':' !in s }

  function PhysicalTable(tenantId: string, logical: string): string {
    TENANT_PREFIX + tenantId + ":" + logical
  }

  function LogicalTable(physical: string): string {
    if !StartsWith(physical, TENANT_PREFIX) then physical
    else
      var rest := physical[3..];
      var i := Find(rest, ":");
      if i.Some? then rest[i.value + 1..] else physical
  }

  predicate BelongsToTenant(physical: string, tenantId: string) {
    StartsWith(physical, TENANT_PREFIX)
    && StartsWith(physical[3..], tenantId)
    && StartsWith(physical[3 + |tenantId|..], ":")
  }

  lemma FindColon(a: string, b: string)
    requires ColonFree(a)
    ensures Find(a + ":" + b, ":") == Some(|a|)
  {
    var s := a + ":" + b;
    forall k: nat | k < |a| ensures !At(s, k, ":") { assert s[k..k + 1][0] == a[k]; }
    assert s[|a|..|a| + 1] == ":";
    assert At(s, |a|, ":");
  }

  /** The logical name comes back exactly from ids without a colon. */
  lemma LogicalUndoesPhysical(id: string, logical: string)
    ensures LogicalTable(PhysicalTable(id, logical)) == logical <==> ColonFree(id)
  {
    var p := PhysicalTable(id, logical);
    assert p[..3] == TENANT_PREFIX && p[3..] == id + ":" + logical;
    if ColonFree(id) {
      FindColon(id, logical);
      assert p[3..][|id| + 1..] == logical;
    } else {
      var k :| 0 <= k < |id| && id[k] == ':';
      assert p[3..][k..k + 1] == ":";
      assert At(p[3..], k, ":");
    }
  }

  /** No two tenants share a physical table, and no tenant has one twice. */
  lemma PhysicalIsInjective(id: string, logical: string, id2: string, logical2: string)
    requires ColonFree(id) && ColonFree(id2) && PhysicalTable(id, logical) == PhysicalTable(id2, logical2)
    ensures id == id2 && logical == logical2
  {
    var p := PhysicalTable(id, logical);
    assert p[3..] == id + ":" + logical == id2 + ":" + logical2;
    FindColon(id, logical);
    FindColon(id2, logical2);
    assert p[3..][..|id|] == id == id2;
    LogicalUndoesPhysical(id, logical);
    LogicalUndoesPhysical(id2, logical2);
  }

  /** A table belongs to a tenant exactly when it is the physical table of some logical name of it. */
  lemma BelongsIsPhysical(physical: string, id: string)
    ensures BelongsToTenant(physical, id) <==> exists logical :: physical == PhysicalTable(id, logical)
  {
    if BelongsToTenant(physical, id) {
      var logical := physical[3 + |id| + 1..];
      assert physical == PhysicalTable(id, logical);
    }
    if logical :| physical == PhysicalTable(id, logical) {
      assert physical[..3] == TENANT_PREFIX && physical[3..][..|id|] == id && physical[3 + |id|..][0] == ':';
    }
  }

  lemma BelongsToOne(id: string, logical: string, other: string)
    requires ColonFree(id) && ColonFree(other)
    ensures BelongsToTenant(PhysicalTable(id, logical), other) <==> id == other
  {
    BelongsIsPhysical(PhysicalTable(id, logical), other);
    if BelongsToTenant(PhysicalTable(id, logical), other) {
      var l :| PhysicalTable(id, logical) == PhysicalTable(other, l);
      PhysicalIsInjective(id, logical, other, l);
    }
  }

  /** With a colon in an id the encoding is ambiguous. */
  lemma ColonIsAmbiguous(a: string, b: string, logical: string)
    ensures PhysicalTable(a + ":" + b, logical) == PhysicalTable(a, b + ":" + logical)
    ensures BelongsToTenant(PhysicalTable(a + ":" + b, logical), a)
  {
    assert PhysicalTable(a + ":" + b, logical) == PhysicalTable(a, b + ":" + logical);
    BelongsIsPhysical(PhysicalTable(a + ":" + b, logical), a);
  }

  // ---- Generated ids ------------------------------------------------------------------------------------

  predicate IsAlphanumeric(c: char) { 'a' <= c <= 'z' || 'A' <= c <= 'Z' || '0' <= c <= '9' }

  function SlugChar(c: char): char { if IsAlphanumeric(c) then c else '-' }

  function TrimDashesStart(s: string): string {
    if s != [] && s[0] == '-' then TrimDashesStart(s[1..]) else s
  }

  function TrimDashesEnd(s: string): string {
    if s != [] && s[|s| - 1] == '-' then TrimDashesEnd(s[..|s| - 1]) else s
  }

  /** `lowered` is the name in lower case, `hex` the random suffix. */
  function GenerateId(lowered: string, hex: string): string {
    var dashed := seq(|lowered|, i requires 0 <= i < |lowered| => SlugChar(lowered[i]));
    var trimmed := TrimDashesEnd(TrimDashesStart(dashed));
    var slug := trimmed[..if |trimmed| < 24 then |trimmed| else 24];
    (if slug == [] then "tenant" else slug) + "-" + hex
  }

  predicate IsIdChar(c: char) { IsAlphanumeric(c) || c == '-' }

  predicate IdChars(s: string) { forall i :: 0 <= i < |s| ==> IsIdChar(s[i]) }

  lemma {:induction false} TrimmedStartChars(s: string)
    requires IdChars(s)
    ensures IdChars(TrimDashesStart(s))
  {
    if s != [] { TrimmedStartChars(s[1..]); }
  }

  lemma {:induction false} TrimmedEndChars(s: string)
    requires IdChars(s)
    ensures IdChars(TrimDashesEnd(s))
  {
    if s != [] { TrimmedEndChars(s[..|s| - 1]); }
  }

  /** Whatever the name, the generated id is made of letters, digits and dashes, so it has no colon. */
  lemma GeneratedIdsAreColonFree(lowered: string, hex: string)
    requires forall i :: 0 <= i < |hex| ==> IsAlphanumeric(hex[i])
    ensures IdChars(GenerateId(lowered, hex)) && ColonFree(GenerateId(lowered, hex))
    ensures |hex| < |GenerateId(lowered, hex)| <= 25 + |hex|
  {
    var dashed := seq(|lowered|, i requires 0 <= i < |lowered| => SlugChar(lowered[i]));
    TrimmedStartChars(dashed);
    TrimmedEndChars(TrimDashesStart(dashed));
    assert forall i :: 0 <= i < |"tenant"| ==> IsIdChar("tenant"[i]);
    assert IdChars(GenerateId(lowered, hex));
    assert !IsIdChar(':');
  }
}
