/** The built-in client list of data/clients.ts. */
module Roster {
  import opened Common
  import opened Types

  const Coach1: string := "coach1"
  const Coach2: string := "coach2"
  const Coach3: string := "coach3"

  /** `dummyClients`. Creation dates are UTC midnights in milliseconds. */
  const Clients: seq<Client> := [
    Client("1", "Sarah Johnson", "+1-555-0101", Some("sarah.johnson@email.com"), Coach1, Active, None, 1705276800000), // 2024-01-15
    Client("2", "Michael Chen", "+1-555-0102", Some("michael.chen@email.com"), Coach1, Active, None, 1705708800000), // 2024-01-20
    Client("3", "Emily Rodriguez", "+1-555-0103", Some("emily.rodriguez@email.com"), Coach2, Active, None, 1706745600000), // 2024-02-01
    Client("4", "David Thompson", "+1-555-0104", Some("david.thompson@email.com"), Coach1, Inactive, None, 1704844800000), // 2024-01-10
    Client("5", "Lisa Wang", "+1-555-0105", Some("lisa.wang@email.com"), Coach2, Active, None, 1707091200000), // 2024-02-05
    Client("6", "James Wilson", "+1-555-0106", Some("james.wilson@email.com"), Coach1, Prospect, None, 1707523200000), // 2024-02-10
    Client("7", "Maria Garcia", "+1-555-0107", Some("maria.garcia@email.com"), Coach2, Active, None, 1706140800000), // 2024-01-25
    Client("8", "Robert Brown", "+1-555-0108", Some("robert.brown@email.com"), Coach1, Active, None, 1706572800000), // 2024-01-30
    Client("9", "Jennifer Davis", "+1-555-0109", Some("jennifer.davis@email.com"), Coach2, Inactive, None, 1704412800000), // 2024-01-05
    Client("10", "Christopher Lee", "+1-555-0110", Some("christopher.lee@email.com"), Coach1, Active, None, 1707955200000), // 2024-02-15
    Client("11", "Amanda Martinez", "+1-555-0111", Some("amanda.martinez@email.com"), Coach2, Prospect, None, 1708387200000), // 2024-02-20
    Client("12", "Daniel Anderson", "+1-555-0112", Some("daniel.anderson@email.com"), Coach1, Active, None, 1705017600000), // 2024-01-12
    Client("13", "Jessica Taylor", "+1-555-0113", Some("jessica.taylor@email.com"), Coach2, Active, None, 1705536000000), // 2024-01-18
    Client("14", "Matthew White", "+1-555-0114", Some("matthew.white@email.com"), Coach1, Active, None, 1707350400000), // 2024-02-08
    Client("15", "Nicole Harris", "+1-555-0115", Some("nicole.harris@email.com"), Coach2, Inactive, None, 1705881600000), // 2024-01-22
    Client("16", "Andrew Clark", "+1-555-0116", Some("andrew.clark@email.com"), Coach1, Active, None, 1707696000000), // 2024-02-12
    Client("17", "Rachel Lewis", "+1-555-0117", Some("rachel.lewis@email.com"), Coach2, Prospect, None, 1708819200000), // 2024-02-25
    Client("18", "Kevin Hall", "+1-555-0118", Some("kevin.hall@email.com"), Coach1, Active, None, 1706400000000), // 2024-01-28
    Client("19", "Stephanie Young", "+1-555-0119", Some("stephanie.young@email.com"), Coach2, Active, None, 1706918400000), // 2024-02-03
    Client("20", "Ryan King", "+1-555-0120", Some("ryan.king@email.com"), Coach1, Active, None, 1708214400000), // 2024-02-18
    Client("21", "Sophia Patel", "+1-555-0121", Some("sophia.patel@email.com"), Coach3, Active, None, 1704672000000), // 2024-01-08
    Client("22", "Marcus Johnson", "+1-555-0122", Some("marcus.johnson@email.com"), Coach3, Active, None, 1708560000000), // 2024-02-22
    Client("23", "Isabella Rodriguez", "+1-555-0123", Some("isabella.rodriguez@email.com"), Coach2, Prospect, None, 1709251200000), // 2024-03-01
    Client("24", "Thomas Kim", "+1-555-0124", Some("thomas.kim@email.com"), Coach1, Active, None, 1705190400000), // 2024-01-14
    Client("25", "Olivia Thompson", "+1-555-0125", Some("olivia.thompson@email.com"), Coach3, Active, None, 1709078400000) // 2024-02-28
  ]

  // ---------------------------------------------------------------------------
  // Clients facts
  // ---------------------------------------------------------------------------

  /** The list holds 25 clients whose ids are "1" to "25" in order, and no
      id repeats. */
  lemma ClientsIds()
    ensures |Clients| == 25
    ensures seq(|Clients|, i requires 0 <= i < |Clients| => Clients[i].id) == [
      "1", "2", "3", "4", "5", "6", "7", "8", "9", "10", "11", "12", "13",
      "14", "15", "16", "17", "18", "19", "20", "21", "22", "23", "24", "25"]
    ensures forall i, j :: 0 <= i < j < |Clients| ==> Clients[i].id != Clients[j].id
  {
  }

}
