/** The metadata record of one uploaded video (`database.Video`). The
    handlers look a record up by the ID parsed from the path, read its
    `CreateVideoParams.UserID` and write one of the two URL pointers; `id`
    and the remaining columns are carried unchanged to `UpdateVideo`. */
module Records {
  import opened Results
  import opened Ids

  datatype Video = Video(
    id: Uuid,
    createdAt: int,                 // timestamps, opaque here
    updatedAt: int,
    thumbnailUrl: Option<string>,   // nil until a thumbnail is uploaded
    videoUrl: Option<string>,       // nil until a video is uploaded; then a locator
    title: string,
    description: string,
    userId: Uuid)                   // the owner
}
