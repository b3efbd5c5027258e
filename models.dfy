/** The row the server stores for one saved shot (Models/ShotAnalysis.cs). */
module Models {

  /**
   `createdAt` stands for the UTC timestamp taken when the record is built;
   `id` for the key the database assigns.
   */
  datatype ShotAnalysis = ShotAnalysis(
    id: int,
    userName: string,
    createdAt: int,
    averageElbowAngle: real,
    averageFeetDistance: real,
    tips: string)
}
