/** The runtime permissions the app asks for, which depend on the Android
    SDK level, and the checks over the set of granted permissions. */
module PermissionsManager {
  import opened Common

  datatype Permission =
    | Camera
    | AccessFineLocation
    | AccessCoarseLocation
    | AccessNetworkState
    | AccessWifiState
    | PostNotifications
    | BluetoothScan
    | BluetoothConnect

  /** `Build.VERSION_CODES.S` (Android 12) and `TIRAMISU` (Android 13). */
  const SDK_S: Int32 := 31
  const SDK_TIRAMISU: Int32 := 33

  const BASE_PERMISSIONS: seq<Permission> :=
    [Camera, AccessFineLocation, AccessCoarseLocation, AccessNetworkState, AccessWifiState]

  /** `REQUIRED_PERMISSIONS` on a device of the given SDK level. */
  function RequiredPermissions(sdk: Int32): (r: seq<Permission>)
    ensures |r| >= 5 && r[..5] == BASE_PERMISSIONS
    ensures PostNotifications in r <==> sdk >= SDK_TIRAMISU
    ensures BluetoothScan in r <==> sdk >= SDK_S
    ensures BluetoothConnect in r <==> sdk >= SDK_S
    ensures forall i, j :: 0 <= i < j < |r| ==> r[i] != r[j]
  {
    BASE_PERMISSIONS
      + (if sdk >= SDK_TIRAMISU then [PostNotifications] else [])
      + (if sdk >= SDK_S then [BluetoothScan, BluetoothConnect] else [])
  }

  /** `hasBluetoothPermissions`: before Android 12 nothing is needed. */
  predicate HasBluetoothPermissions(sdk: Int32, granted: set<Permission>) {
    sdk >= SDK_S ==> BluetoothScan in granted && BluetoothConnect in granted
  }

  /** `hasAllPermissions`. */
  predicate HasAllPermissions(sdk: Int32, granted: set<Permission>) {
    forall p :: p in RequiredPermissions(sdk) ==> p in granted
  }

  /** The entries of `ps` not granted, in order. */
  function NotGranted(ps: seq<Permission>, granted: set<Permission>): (r: seq<Permission>)
    ensures forall p :: p in r <==> p in ps && p !in granted
    ensures |r| <= |ps|
  {
    if ps == [] then []
    else (if ps[0] in granted then [] else [ps[0]]) + NotGranted(ps[1..], granted)
  }

  /** `getMissingPermissions`. */
  function MissingPermissions(sdk: Int32, granted: set<Permission>): (r: seq<Permission>)
    ensures forall p :: p in r <==> p in RequiredPermissions(sdk) && p !in granted
  {
    NotGranted(RequiredPermissions(sdk), granted)
  }

  lemma {:induction false} NotGrantedIsSubsequence(ps: seq<Permission>, granted: set<Permission>)
    ensures Subsequence(NotGranted(ps, granted), ps)
  {
    if ps != [] {
      NotGrantedIsSubsequence(ps[1..], granted);
      var r := NotGranted(ps, granted);
      if ps[0] in granted {
        assert r == NotGranted(ps[1..], granted);
        if r != [] {
          assert Subsequence(r, ps[1..]);
        }
      } else {
        assert r[1..] == NotGranted(ps[1..], granted);
      }
    }
  }

  /** The missing list keeps the order of the required list. */
  lemma MissingInRequiredOrder(sdk: Int32, granted: set<Permission>)
    ensures Subsequence(MissingPermissions(sdk, granted), RequiredPermissions(sdk))
  {
    NotGrantedIsSubsequence(RequiredPermissions(sdk), granted);
  }

  /** All permissions are held exactly when none is missing. */
  lemma HasAllIffNoneMissing(sdk: Int32, granted: set<Permission>)
    ensures HasAllPermissions(sdk, granted) <==> MissingPermissions(sdk, granted) == []
  {
    var m := MissingPermissions(sdk, granted);
    if m != [] {
      assert m[0] in m;
    }
  }

  /** Holding every required permission includes the Bluetooth ones. */
  lemma AllIncludesBluetooth(sdk: Int32, granted: set<Permission>)
    requires HasAllPermissions(sdk, granted)
    ensures HasBluetoothPermissions(sdk, granted)
  {
    if sdk >= SDK_S {
      assert BluetoothScan in RequiredPermissions(sdk);
      assert BluetoothConnect in RequiredPermissions(sdk);
    }
  }
}
