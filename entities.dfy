/** The persisted entities the rules below read, reduced to the fields they use. */
module Entities {
  import opened Wrappers

  /** A place row with the id of its owning user (`None` when the user
      relation is null). Latitude and longitude are only copied around. */
  datatype Place = Place(
    id: int,
    name: string,
    address: string,
    area: string,
    latitude: real,
    longitude: real,
    description: Option<string>,
    ownerId: Option<int>)

  /** An event row: its place, its activity (a nullable relation) and its
      start and end as local time values. */
  datatype StoredEvent = StoredEvent(
    id: int,
    placeId: int,
    activityId: Option<int>,
    start: int,
    end: int,
    description: Option<string>)

  /** An event as the admin client receives it from GET /api/events. */
  datatype ListedEvent = ListedEvent(
    id: nat,
    placeId: nat,
    activityId: nat,
    start: int,
    end: int,
    description: Option<string>)
}
